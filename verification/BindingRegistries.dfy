/**
 The registry as the object it is: fields that replay refills and records update
 in place, over a database that other writers may extend at any boundary.
 */
module BindingRegistries {
  import opened Wrappers
  import opened Framing
  import opened Tokens
  import opened Actors
  import opened Bindings
  import opened BindingRecords
  import opened Snapshot
  import opened GuardedStore
  import R = Registry
  import RegistrySafety
  import Descriptor
  import opened RegistryRuns

  /** What a receipt remembers of a request: its guard and the row it would insert. */
  datatype Request = Request(captured: seq<R.Raw>, columns: R.Columns)

  class Database {
    var rows: seq<R.Raw>
    var receipts: map<Text, Request>
    var lastId: nat

    ghost predicate Valid()
      reads this
    {
      Ascending(rows) && forall i :: 0 <= i < |rows| ==> rows[i].id <= lastId
    }

    constructor ()
      ensures Valid() && rows == [] && receipts == map[]
    {
      rows, receipts, lastId := [], map[], 0;
    }

    /** One atomic guarded submission. */
    method Submit(operation: Text, request: Request, foreign: bool) returns (verdict: Verdict)
      requires Valid()
      modifies this
      ensures Valid()
      ensures verdict == Judge(old(receipts), operation, request, foreign && GuardHolds(request.captured, old(rows)))
      ensures verdict == Applied ==>
                && receipts == old(receipts)[operation := request]
                && lastId == old(lastId) + 1 && rows == old(rows) + [Stored(lastId, request.columns)]
      ensures verdict != Applied ==> receipts == old(receipts) && rows == old(rows)
    {
      verdict := Judge(receipts, operation, request, foreign && GuardHolds(request.captured, rows));
      if verdict == Applied {
        lastId := lastId + 1;
        rows := rows + [Stored(lastId, request.columns)];
        receipts := receipts[operation := request];
      }
    }

    /**
     Between reading and submitting, other writers may commit anything that only
     adds rows and receipts; an operation identity that is `unique` stays unused.
     */
    method AtBoundary(ghost unique: set<Text>)
      requires Valid()
      modifies this
      ensures Valid() && old(rows) <= rows
      ensures forall o :: o in old(receipts) ==> o in receipts && receipts[o] == old(receipts)[o]
      ensures forall o :: o in unique && o !in old(receipts) ==> o !in receipts
    {
    }
  }

  class BindingRegistry {
    var equipment: map<Text, EquipmentRecord>
    var spaces: map<Text, PlaceRecord>
    var sources: map<Text, PlaceRecord>
    var points: map<Text, PointRecord>
    var bindings: seq<Binding>
    var findings: seq<R.Cited>
    var retired: set<Text>
    var retiredAddresses: set<Text>
    var reassessment: set<Text>
    var revision: nat
    var sequence: nat
    var guard: seq<R.Raw>

    /** The fields as one value. */
    function State(): R.Registry
      reads this
    {
      R.Registry(equipment, spaces, sources, points, bindings, findings, retired, retiredAddresses, reassessment,
                 revision, sequence)
    }

    constructor ()
      ensures State() == R.EMPTY
    {
      equipment, spaces, sources, points := map[], map[], map[], map[];
      bindings, findings := [], [];
      retired, retiredAddresses, reassessment := {}, {}, {};
      revision, sequence, guard := 0, 0, [];
    }

    method BumpRevision()
      modifies this`revision
      ensures revision == R.Bump(old(revision))
    {
      revision := if revision < U32_MAX then revision + 1 else U32_MAX;
    }

    /** Insert one believed row into the maps and sets it concerns. */
    method Insert(row: Row, stamped: nat)
      modifies this
      ensures State() == R.Apply(old(State()), row, stamped) && guard == old(guard)
    {
      match row {
        case Equipment(e) =>
          if e.address in retiredAddresses {
            reassessment := reassessment + {e.id};
          }
          equipment := equipment[e.id := e];
          BumpRevision();
        case Space(p) =>
          spaces := spaces[p.id := p];
          BumpRevision();
        case Source(p) =>
          sources := sources[p.id := p];
          BumpRevision();
        case Point(p) =>
          points := points[R.PointKey(p.equipment, p.property) := p];
          BumpRevision();
        case Retire(id, address, _) =>
          retired := retired + {id};
          retiredAddresses := retiredAddresses + {address};
          BumpRevision();
        case Proposal(b, _) =>
          bindings := bindings + [b];
          BumpRevision();
        case Finding(f) =>
          findings := findings + [R.CitedOf(f, stamped)];
      }
    }

    /** Clear every field and refill it from the durable rows, stopping at a row that is not believed. */
    method Replay(db: Database) returns (complete: bool)
      modifies this
      ensures R.Replayed(State(), complete) == R.ReplayOf(db.rows)
      ensures complete ==> guard == db.rows
    {
      hide R.Believed, R.Apply, R.ReplayFrom;
      equipment, spaces, sources, points := map[], map[], map[], map[];
      bindings, findings := [], [];
      retired, retiredAddresses, reassessment := {}, {}, {};
      revision, sequence, guard := 0, 0, [];
      var rows, count := db.rows, 0;
      assert rows[0..] == rows;
      while count < |rows|
        invariant count <= |rows| && rows == db.rows && guard == rows[..count] && sequence == 0
        invariant R.ReplayFrom(State(), count, rows[count..]) == R.ReplayOf(rows)
      {
        guard := guard + [rows[count]];
        assert rows[count..][1..] == rows[count + 1..];
        var believed := R.Believed(State(), count, rows[count]);
        ReplayStep(State(), count, rows[count..]);
        if believed.None? {
          return false;
        }
        RegistrySafety.ApplyKeepsSequence(State(), believed.value.row, believed.value.revision);
        Insert(believed.value.row, believed.value.revision);
        count := count + 1;
      }
      ReplayStep(State(), count, rows[count..]);
      sequence := count;
      return true;
    }

    /** `prepare_row`, the boundary, and the guarded submission of a record. */
    method WriteRecord(db: Database, operation: Text, row: Row) returns (written: bool)
      requires db.Valid() && IsToken(operation) && operation !in db.receipts && RowOk(row) && revision <= U32_MAX
      requires guard == db.rows && sequence == |guard|
      modifies db, this`sequence
      ensures db.Valid() && old(db.rows) <= db.rows
      ensures written ==>
                && db.rows == old(db.rows) + [Stored(db.lastId, ColumnsOf(row, Stamp(operation, revision), |old(db.rows)| + 1))]
                && R.HasRoom(old(State()), row) && sequence == old(sequence) + 1
      ensures !written ==> sequence == old(sequence)
    {
      hide EncodeRow, RowOk;
      if !R.HasRoom(State(), row) {
        return false;
      }
      var request := Request(guard, ColumnsOf(row, Stamp(operation, revision), sequence + 1));
      db.AtBoundary({operation});
      GuardIsEquality(guard, db.rows);
      var verdict := db.Submit(operation, request, true);
      if verdict != Applied {
        return false;
      }
      sequence := sequence + 1;
      return true;
    }

    /** Write the row, then evolve the fields; nothing evolves before the commit. */
    method Record(db: Database, operation: Text, row: Row) returns (r: Result<(), R.BindingError>)
      requires db.Valid() && IsToken(operation) && operation !in db.receipts && RowOk(row) && Readable(row)
      requires revision <= U32_MAX && guard == db.rows && R.ReplayOf(db.rows) == R.Replayed(State(), true)
      modifies this, db
      ensures db.Valid() && old(db.rows) <= db.rows
      ensures r.Success? ==>
                && R.HasRoom(old(State()), row) && R.ReplayOf(db.rows) == R.Replayed(State(), true)
                && db.rows == old(db.rows) + [Stored(db.lastId, ColumnsOf(row, Stamp(operation, old(revision)), |old(db.rows)| + 1))]
      ensures r.Failure? ==> r.error == R.Conflict && State() == old(State())
    {
      hide R.ReplayFrom, EncodeRow, RowOk, Readable, R.Apply;
      ghost var before, state := db.rows, State();
      ReplayCounts(db.rows);
      var written := WriteRecord(db, operation, row);
      if !written {
        return Failure(R.Conflict);
      }
      RecordRefines(before, state, row, Stamp(operation, revision), db.lastId);
      RegistrySafety.ApplyIgnoresSequence(state, row, revision, |before| + 1);
      Insert(row, revision);
      return Success(());
    }

    /** Record equipment under a new identity; flagged when its address was retired. */
    method RecordEquipment(db: Database, operation: Text, e: EquipmentRecord) returns (r: Result<(), R.BindingError>)
      requires db.Valid() && IsToken(operation) && operation !in db.receipts
      modifies this, db
      ensures db.Valid() && old(db.rows) <= db.rows
      ensures r.Success? ==> Added(old(db.rows), R.PlanEquipment(R.ReplayOf(old(db.rows)).state, e), operation, db.rows, db.lastId)
      ensures r.Success? ==> R.ReplayOf(db.rows) == R.Replayed(State(), true)
      ensures r.Failure? ==> State() == R.ReplayOf(old(db.rows)).state
      ensures R.ReplayOf(old(db.rows)).complete && R.PlanEquipment(R.ReplayOf(old(db.rows)).state, e).Failure? ==>
                r == Failure(R.PlanEquipment(R.ReplayOf(old(db.rows)).state, e).error) && db.rows == old(db.rows)
    {
      hide R.ReplayFrom, R.Apply, R.HasRoom, EncodeRow;
      var complete := Replay(db);
      if !complete {
        return Failure(R.InvalidRecord);
      }
      ReplayIsBounded(db.rows);
      var row := R.PlanEquipment(State(), e);
      if row.Failure? {
        return Failure(row.error);
      }
      r := Record(db, operation, row.value);
    }

    /** Record a space under a new identity. */
    method RecordSpace(db: Database, operation: Text, p: PlaceRecord) returns (r: Result<(), R.BindingError>)
      requires db.Valid() && IsToken(operation) && operation !in db.receipts
      modifies this, db
      ensures db.Valid() && old(db.rows) <= db.rows
      ensures r.Success? ==> Added(old(db.rows), R.PlanSpace(R.ReplayOf(old(db.rows)).state, p), operation, db.rows, db.lastId)
      ensures r.Success? ==> R.ReplayOf(db.rows) == R.Replayed(State(), true)
      ensures r.Failure? ==> State() == R.ReplayOf(old(db.rows)).state
      ensures R.ReplayOf(old(db.rows)).complete && R.PlanSpace(R.ReplayOf(old(db.rows)).state, p).Failure? ==>
                r == Failure(R.PlanSpace(R.ReplayOf(old(db.rows)).state, p).error) && db.rows == old(db.rows)
    {
      hide R.ReplayFrom, R.Apply, R.HasRoom, EncodeRow;
      var complete := Replay(db);
      if !complete {
        return Failure(R.InvalidRecord);
      }
      ReplayIsBounded(db.rows);
      var row := R.PlanSpace(State(), p);
      if row.Failure? {
        return Failure(row.error);
      }
      r := Record(db, operation, row.value);
    }

    /** Record a source under a new identity. */
    method RecordSource(db: Database, operation: Text, p: PlaceRecord) returns (r: Result<(), R.BindingError>)
      requires db.Valid() && IsToken(operation) && operation !in db.receipts
      modifies this, db
      ensures db.Valid() && old(db.rows) <= db.rows
      ensures r.Success? ==> Added(old(db.rows), R.PlanSource(R.ReplayOf(old(db.rows)).state, p), operation, db.rows, db.lastId)
      ensures r.Success? ==> R.ReplayOf(db.rows) == R.Replayed(State(), true)
      ensures r.Failure? ==> State() == R.ReplayOf(old(db.rows)).state
      ensures R.ReplayOf(old(db.rows)).complete && R.PlanSource(R.ReplayOf(old(db.rows)).state, p).Failure? ==>
                r == Failure(R.PlanSource(R.ReplayOf(old(db.rows)).state, p).error) && db.rows == old(db.rows)
    {
      hide R.ReplayFrom, R.Apply, R.HasRoom, EncodeRow;
      var complete := Replay(db);
      if !complete {
        return Failure(R.InvalidRecord);
      }
      ReplayIsBounded(db.rows);
      var row := R.PlanSource(State(), p);
      if row.Failure? {
        return Failure(row.error);
      }
      r := Record(db, operation, row.value);
    }

    /** Record a point under a new equipment and property key. */
    method RecordPoint(db: Database, operation: Text, p: PointRecord) returns (r: Result<(), R.BindingError>)
      requires db.Valid() && IsToken(operation) && operation !in db.receipts
      modifies this, db
      ensures db.Valid() && old(db.rows) <= db.rows
      ensures r.Success? ==> Added(old(db.rows), R.PlanPoint(R.ReplayOf(old(db.rows)).state, p), operation, db.rows, db.lastId)
      ensures r.Success? ==> R.ReplayOf(db.rows) == R.Replayed(State(), true)
      ensures r.Failure? ==> State() == R.ReplayOf(old(db.rows)).state
      ensures R.ReplayOf(old(db.rows)).complete && R.PlanPoint(R.ReplayOf(old(db.rows)).state, p).Failure? ==>
                r == Failure(R.PlanPoint(R.ReplayOf(old(db.rows)).state, p).error) && db.rows == old(db.rows)
    {
      hide R.ReplayFrom, R.Apply, R.HasRoom, EncodeRow;
      var complete := Replay(db);
      if !complete {
        return Failure(R.InvalidRecord);
      }
      ReplayIsBounded(db.rows);
      var row := R.PlanPoint(State(), p);
      if row.Failure? {
        return Failure(row.error);
      }
      r := Record(db, operation, row.value);
    }

    /** Retire recorded equipment; its address then flags whatever is recorded there later. */
    method RetireEquipment(db: Database, operation: Text, id: Text, reason: Text) returns (r: Result<(), R.BindingError>)
      requires db.Valid() && IsToken(operation) && operation !in db.receipts && Descriptor.IsUtf8(reason)
      modifies this, db
      ensures db.Valid() && old(db.rows) <= db.rows
      ensures r.Success? ==> Added(old(db.rows), R.PlanRetire(R.ReplayOf(old(db.rows)).state, id, reason), operation, db.rows, db.lastId)
      ensures r.Success? ==> R.ReplayOf(db.rows) == R.Replayed(State(), true)
      ensures r.Failure? ==> State() == R.ReplayOf(old(db.rows)).state
      ensures R.ReplayOf(old(db.rows)).complete && R.PlanRetire(R.ReplayOf(old(db.rows)).state, id, reason).Failure? ==>
                r == Failure(R.PlanRetire(R.ReplayOf(old(db.rows)).state, id, reason).error) && db.rows == old(db.rows)
    {
      hide R.ReplayFrom, R.Apply, R.HasRoom, EncodeRow, IsToken, Descriptor.IsUtf8;
      var complete := Replay(db);
      if !complete {
        return Failure(R.InvalidRecord);
      }
      ReplayIsBounded(db.rows);
      RecordsAreOk(db.rows);
      var row := R.PlanRetire(State(), id, reason);
      if row.Failure? {
        return Failure(row.error);
      }
      r := Record(db, operation, row.value);
    }

    /**
     Submit a proposal at an explicit revision: recover it when its operation
     already has a receipt, otherwise resolve it against present truth, write it,
     and refresh. `authority` is what entering the access gate answered, and
     `foreign` the truth of its guard when the transaction runs.
     */
    method SubmitProposal(db: Database, operation: Text, b: Binding, input: nat,
                          authority: Result<Actor, R.BindingError>, foreign: bool) returns (r: Result<(), R.BindingError>)
      requires db.Valid() && IsToken(operation) && BindingOk(b)
      requires authority.Success? ==> ActorOk(authority.value)
      modifies this, db
      ensures db.Valid() && old(db.rows) <= db.rows
      ensures r.Success? && operation !in old(db.receipts) ==>
                && R.ReplayOf(old(db.rows)).complete && authority.Success?
                && R.PlanProposal(R.ReplayOf(old(db.rows)).state, b, input, authority.value).Success?
                && input <= U32_MAX && operation in db.receipts && R.ReplayOf(db.rows) == R.Replayed(State(), true)
                && db.receipts[operation].captured == old(db.rows)
                && db.receipts[operation].columns
                   == ColumnsOf(Proposal(b, authority.value), Stamp(operation, input), |old(db.rows)| + 1)
      ensures operation in old(db.receipts) ==> db.rows == old(db.rows) && db.receipts == old(db.receipts)
      ensures operation in old(db.receipts) && r.Success? ==>
                Reconcile(old(db.receipts)[operation].columns, b, input).Success?
      ensures R.ReplayOf(old(db.rows)).complete && operation !in old(db.receipts) && authority.Success?
              && R.PlanProposal(R.ReplayOf(old(db.rows)).state, b, input, authority.value).Failure? ==>
                r == Failure(R.PlanProposal(R.ReplayOf(old(db.rows)).state, b, input, authority.value).error)
                && db.rows == old(db.rows)
    {
      hide R.ReplayFrom, R.Apply, R.HasRoom, EncodeRow, R.Resolve, BindingOk, IsToken, ActorOk;
      var complete := Replay(db);
      if !complete {
        return Failure(R.InvalidRecord);
      }
      if operation in db.receipts {
        return Reconcile(db.receipts[operation].columns, b, input);
      }
      if revision != input {
        return Failure(R.Conflict);
      }
      var resolved := R.Resolve(State(), b);
      if resolved.Failure? {
        return Failure(resolved.error);
      }
      if authority.Failure? {
        return Failure(authority.error);
      }
      ReplayIsBounded(db.rows);
      ReplayCounts(db.rows);
      var row := Proposal(b, authority.value);
      if !R.HasRoom(State(), row) {
        return Failure(R.Conflict);
      }
      var request := Request(guard, ColumnsOf(row, Stamp(operation, revision), sequence + 1));
      db.AtBoundary({});
      var verdict := db.Submit(operation, request, foreign);
      if verdict == Refused || verdict == Clash {
        return Failure(R.Conflict);
      }
      complete := Replay(db);
      if !complete {
        return Failure(R.InvalidRecord);
      }
      return Success(());
    }

    /**
     Emit a finding over a proposed binding at an explicit revision: recover the
     cited finding when the operation already has a receipt, otherwise resolve,
     require the durable proposal, write under the joined authority and refresh.
     `digest` is the fingerprint of the binding's canonical text.
     */
    method EmitFinding(db: Database, operation: Text, b: Binding, input: nat, digest: Text,
                       authority: Result<Actor, R.BindingError>, foreign: bool)
      returns (r: Result<R.Cited, R.BindingError>)
      requires db.Valid() && IsToken(operation) && BindingOk(b) && IsToken(digest) && |digest| == 16
      requires authority.Success? ==> ActorOk(authority.value)
      modifies this, db
      ensures db.Valid() && old(db.rows) <= db.rows
      ensures r.Success? && operation !in old(db.receipts) ==>
                && R.ReplayOf(old(db.rows)).complete && authority.Success?
                && var plan := R.PlanFinding(R.ReplayOf(old(db.rows)).state, b, input, authority.value, digest);
                   plan.Success? && RowOk(plan.value) && input <= U32_MAX
                   && operation in db.receipts && R.ReplayOf(db.rows) == R.Replayed(State(), true)
                   && db.receipts[operation]
                      == Request(old(db.rows), ColumnsOf(plan.value, Stamp(operation, input), |old(db.rows)| + 1))
                   && r.value == R.CitedOf(plan.value.finding, input)
      ensures operation in old(db.receipts) ==> db.rows == old(db.rows) && db.receipts == old(db.receipts)
      ensures operation in old(db.receipts) && r.Success? ==>
                r.value in findings && r.value.generation == input
                && CitesBinding(old(db.receipts)[operation].columns, b, input, r.value.fid)
      ensures R.ReplayOf(old(db.rows)).complete && operation !in old(db.receipts) && authority.Success?
              && R.PlanFinding(R.ReplayOf(old(db.rows)).state, b, input, authority.value, digest).Failure? ==>
                r == Failure(R.PlanFinding(R.ReplayOf(old(db.rows)).state, b, input, authority.value, digest).error)
                && db.rows == old(db.rows)
    {
      hide R.ReplayFrom, R.Apply, R.HasRoom, EncodeRow, R.Resolve, BindingOk, IsToken, ActorOk, R.FindingFor, RowOk,
        CitesBinding;
      var complete := Replay(db);
      if !complete {
        return Failure(R.InvalidRecord);
      }
      if operation in db.receipts {
        return RecoverFinding(findings, db.receipts[operation].columns, b, input);
      }
      if revision != input {
        return Failure(R.Conflict);
      }
      var resolved := R.Resolve(State(), b);
      if resolved.Failure? {
        return Failure(resolved.error);
      }
      if b !in bindings {
        return Failure(R.Conflict);
      }
      if authority.Failure? {
        return Failure(authority.error);
      }
      ReplayIsBounded(db.rows);
      ReplayCounts(db.rows);
      RegistrySafety.FindingIsOk(b, input, authority.value, digest);
      var row := Finding(R.FindingFor(b, input, authority.value, digest));
      if !R.HasRoom(State(), row) {
        return Failure(R.Conflict);
      }
      var request := Request(guard, ColumnsOf(row, Stamp(operation, input), sequence + 1));
      db.AtBoundary({});
      var verdict := db.Submit(operation, request, foreign);
      if verdict == Refused || verdict == Clash {
        return Failure(R.Conflict);
      }
      complete := Replay(db);
      if !complete {
        return Failure(R.InvalidRecord);
      }
      return Success(R.CitedOf(row.finding, input));
    }
  }

  /** The receipt's row is a finding of this binding at this revision, under `fid`. */
  predicate CitesBinding(columns: R.Columns, b: Binding, input: nat, fid: Text)
  {
    match DecodeRow(columns.descriptor)
    case Failure(_) => false
    case Success(signed) =>
      && columns.operation == R.FindingKind && signed.row.Finding? && signed.revision == input
      && signed.row.finding.canonical == R.Canonical(b) && signed.row.finding.fid == fid
  }

  /** The first replayed finding with this id and generation. */
  function FindCited(findings: seq<R.Cited>, fid: Text, generation: nat): (r: Option<R.Cited>)
    ensures r.Some? ==> r.value in findings && r.value.fid == fid && r.value.generation == generation
    ensures r.None? ==> forall i :: 0 <= i < |findings| ==> !(findings[i].fid == fid && findings[i].generation == generation)
  {
    if findings == [] then None
    else if findings[0].fid == fid && findings[0].generation == generation then Some(findings[0])
    else FindCited(findings[1..], fid, generation)
  }

  /** Recovery from a receipt: the stored row must cite this binding, and be replayed. */
  function RecoverFinding(findings: seq<R.Cited>, columns: R.Columns, b: Binding, input: nat)
    : (r: Result<R.Cited, R.BindingError>)
    ensures r.Success? ==>
              r.value in findings && r.value.generation == input && CitesBinding(columns, b, input, r.value.fid)
  {
    match DecodeRow(columns.descriptor)
    case Failure(_) => Failure(R.InvalidRecord)
    case Success(signed) =>
      if !signed.row.Finding? || !CitesBinding(columns, b, input, signed.row.finding.fid) then Failure(R.Conflict)
      else
        match FindCited(findings, signed.row.finding.fid, input)
        case None => Failure(R.Conflict)
        case Some(cited) => Success(cited)
  }

  /** Recovery from a receipt: the stored row must say what the caller says. */
  function Reconcile(columns: R.Columns, b: Binding, input: nat): Result<(), R.BindingError>
  {
    match DecodeRow(columns.descriptor)
    case Failure(_) => Failure(R.InvalidRecord)
    case Success(signed) =>
      if columns.operation != R.ProposalKind || !signed.row.Proposal? || signed.row.binding != b
         || signed.revision != input || input >= U32_MAX
      then Failure(R.Conflict)
      else Success(())
  }

  lemma ReplayStep(s: R.Registry, count: nat, rows: seq<R.Raw>)
    ensures rows == [] ==> R.ReplayFrom(s, count, rows) == R.Replayed(s.(sequence := count), true)
    ensures rows != [] && R.Believed(s, count, rows[0]).None? ==> R.ReplayFrom(s, count, rows) == R.Replayed(s, false)
    ensures rows != [] && R.Believed(s, count, rows[0]).Some? ==>
              var signed := R.Believed(s, count, rows[0]).value;
              R.ReplayFrom(s, count, rows)
              == R.ReplayFrom(R.Apply(s, signed.row, signed.revision), count + 1, rows[1..])
  {
    hide R.Believed, R.Apply;
  }

  function ColumnsOf(row: Row, s: Stamp, sequence: nat): R.Columns
    requires RowOk(row) && StampOk(s)
  {
    R.Columns(R.KindOf(row), R.EntityOf(row), sequence, EncodeRow(row, s))
  }

  /** The rows grew by exactly the planned one, stamped with the revision it was planned at. */
  ghost predicate Added(before: seq<R.Raw>, plan: Result<Row, R.BindingError>, operation: Text, after: seq<R.Raw>, id: nat)
  {
    && R.ReplayOf(before).complete && plan.Success? && RowOk(plan.value)
    && StampOk(Stamp(operation, R.ReplayOf(before).state.revision))
    && after == before
              + [Stored(id, ColumnsOf(plan.value, Stamp(operation, R.ReplayOf(before).state.revision), |before| + 1))]
  }

  lemma ReplayIsBounded(rows: seq<R.Raw>)
    ensures R.ReplayOf(rows).state.revision <= U32_MAX
  {
    hide R.ReplayFrom;
    RegistrySafety.RevisionIsSmall(R.EMPTY, 0, rows);
  }

  lemma RecordsAreOk(rows: seq<R.Raw>)
    ensures RegistrySafety.RecordsOk(R.ReplayOf(rows).state)
  {
    hide R.ReplayFrom;
    RegistrySafety.NothingIsRecorded();
    RegistrySafety.ReplayKeepsRecords(R.EMPTY, 0, rows);
  }

  lemma {:induction false} CountFrom(s: R.Registry, count: nat, rows: seq<R.Raw>)
    requires R.ReplayFrom(s, count, rows).complete
    ensures R.ReplayFrom(s, count, rows).state.sequence == count + |rows|
    decreases |rows|
  {
    hide R.Apply, R.Believed;
    if rows != [] {
      var signed := R.Believed(s, count, rows[0]).value;
      CountFrom(R.Apply(s, signed.row, signed.revision), count + 1, rows[1..]);
    }
  }

  lemma ReplayCounts(rows: seq<R.Raw>)
    requires R.ReplayOf(rows).complete
    ensures R.ReplayOf(rows).state.sequence == |rows|
  {
    hide R.ReplayFrom;
    CountFrom(R.EMPTY, 0, rows);
  }

  /** Replaying one more readable row is applying it. */
  lemma RecordRefines(rows: seq<R.Raw>, s: R.Registry, row: Row, stamp: Stamp, id: nat)
    requires R.ReplayOf(rows) == R.Replayed(s, true) && RowOk(row) && Readable(row) && StampOk(stamp)
    requires stamp.revision == s.revision
    ensures R.ReplayOf(rows + [Stored(id, ColumnsOf(row, stamp, |rows| + 1))])
         == R.Replayed(R.Apply(s, row, stamp.revision).(sequence := |rows| + 1), true)
  {
    hide R.ReplayFrom, R.Apply, EncodeRow, RowOk, Readable, StampOk, DecodeRow;
    var raw := Stored(id, ColumnsOf(row, stamp, |rows| + 1));
    RegistrySafety.ReplayOneMore(R.EMPTY, 0, rows, raw);
    RowReadsBack(row, stamp);
  }
}
