/** The ingestion pipeline: raw events of a data source are validated in a fixed order, stored
    once per natural key, and announced in the outbox when accepted. Instants are whole
    microseconds; schema validation of a raw event is an input, and so is whether the database
    takes its JSON document. */
module Ingestion {
  import opened Geography
  import opened Options
  import opened Outbox

  const SCHEMA_VERSION := "1.0"
  const UNNAMED := "(bilinmiyor)"
  const MAX_CLOCK_SKEW := 5 * 60 * 1_000_000
  const MAX_AGE := 3 * 24 * 3600 * 1_000_000
  const EXTERNAL_ID_WIDTH := 200

  datatype Telemetry = Telemetry(position: Position, speedKph: Option<real>, acceleration: Option<real>,
                                 lateral: Option<real>)

  datatype Payload = NotAPosition | InvalidPosition(aboutCoordinates: bool) | ValidPosition(telemetry: Telemetry)

  /** A JSON document as far as storing it matters: it is refused, for instance, with U+0000 or a
      lone surrogate in a text or with a number that JSON lacks. */
  datatype Document = Document(refused: bool)

  /** The texts that structural validation lets through. */
  type EventId = s: string | 1 <= |s| <= EXTERNAL_ID_WIDTH witness "-"
  type Name = s: string | 1 <= |s| <= 120 witness "-"

  /** A valid event, and the document it is stored as. */
  datatype Envelope = Envelope(source: Name, eventId: EventId, vehicle: Name, occurredAt: int, payload: Payload,
                               document: Document)

  /** A raw event: the texts of two of its fields ("" when missing), the event itself as a document,
      and the envelope that structural validation makes of it, if it passes. */
  datatype Raw = Raw(eventId: string, schemaVersion: string, document: Document, parsed: Option<Envelope>)

  datatype Reason = SchemaVersionUnsupported | InvalidPayload | CoordinatesOutOfRange
                  | TimestampInFuture | TimestampTooOld | UnknownVehicle

  datatype RowStatus = Accepted | InProcess | Processed | Quarantined(reason: Reason)

  /** A stored ingest event; rows are identified by their position. */
  datatype IngestRow = IngestRow(organization: nat, source: string, externalId: string, envelope: Option<Envelope>,
                                 status: RowStatus)

  datatype DataSource = DataSource(organization: nat, key: string)

  // ---------------------------------------------------------------- validation

  function CheckTimestamp(occurredAt: int, now: int): Option<Reason> {
    if occurredAt > now + MAX_CLOCK_SKEW then Some(TimestampInFuture)
    else if occurredAt < now - MAX_AGE then Some(TimestampTooOld)
    else None
  }

  datatype Verdict = Accept(accepted: Envelope) | Reject(reason: Reason, envelope: Option<Envelope>)

  predicate PassesGate(raw: Raw) {
    raw.schemaVersion == "" || raw.schemaVersion == SCHEMA_VERSION
  }

  function Judge(raw: Raw, known: set<string>, now: int): Verdict {
    if !PassesGate(raw) then Reject(SchemaVersionUnsupported, None)
    else if raw.parsed.None? then Reject(InvalidPayload, None)
    else
      var e := raw.parsed.value;
      var late := CheckTimestamp(e.occurredAt, now);
      if e.payload.InvalidPosition? then
        Reject(if e.payload.aboutCoordinates then CoordinatesOutOfRange else InvalidPayload, Some(e))
      else if late.Some? then Reject(late.value, Some(e))
      else if e.vehicle !in known then Reject(UnknownVehicle, Some(e))
      else Accept(e)
  }

  // ---------------------------------------------------------------- storing

  datatype Key = Key(organization: nat, source: string, externalId: string)

  function KeyOf(row: IngestRow): Key {
    Key(row.organization, row.source, row.externalId)
  }

  predicate HasKey(rows: seq<IngestRow>, key: Key) {
    exists i :: 0 <= i < |rows| && KeyOf(rows[i]) == key
  }

  function ExternalId(raw: Raw): string {
    if raw.eventId == "" then UNNAMED else raw.eventId
  }

  /** The row a raw event would be stored as. */
  function RowFor(src: DataSource, raw: Raw, verdict: Verdict): IngestRow {
    match verdict
    case Accept(e) => IngestRow(src.organization, e.source, e.eventId, Some(e), Accepted)
    case Reject(reason, Some(e)) => IngestRow(src.organization, e.source, e.eventId, Some(e), Quarantined(reason))
    case Reject(reason, None) => IngestRow(src.organization, src.key, ExternalId(raw), None, Quarantined(reason))
  }

  /** The document that is stored with the row. */
  function DocumentFor(raw: Raw, verdict: Verdict): Document {
    match verdict
    case Accept(e) => e.document
    case Reject(_, Some(e)) => e.document
    case Reject(_, None) => raw.document
  }

  /** The first and the last instant of a calendar of the years 1 to 9999 in universal time. A
      timestamp with a time zone may lie up to a day outside, and is then not encoded. */
  const FIRST_INSTANT := -62_135_596_800_000_000
  const LAST_INSTANT := 253_402_300_799_999_999

  predicate Encodable(occurredAt: int) {
    FIRST_INSTANT <= occurredAt <= LAST_INSTANT
  }

  /** An insert raises on an id longer than its column, on a document that is refused and on an
      instant that is not encoded, before it comes to a conflict. */
  predicate Raises(row: IngestRow, document: Document) {
    || |row.externalId| > EXTERNAL_ID_WIDTH || document.refused
    || (row.envelope.Some? && !Encodable(row.envelope.value.occurredAt))
  }

  predicate Storable(src: DataSource, raw: Raw, known: set<string>, now: int) {
    var verdict := Judge(raw, known, now);
    !Raises(RowFor(src, raw, verdict), DocumentFor(raw, verdict))
  }

  datatype Outcome = IsAccepted | IsDuplicate | IsQuarantined(reason: Reason)

  datatype Intake = Intake(rows: seq<IngestRow>, outbox: seq<OutboxEvent>)

  function OutcomeOf(rows: seq<IngestRow>, src: DataSource, raw: Raw, known: set<string>, now: int): Outcome {
    match Judge(raw, known, now)
    case Accept(e) => if HasKey(rows, KeyOf(RowFor(src, raw, Accept(e)))) then IsDuplicate else IsAccepted
    case Reject(reason, _) => IsQuarantined(reason)
  }

  function AfterOne(intake: Intake, src: DataSource, raw: Raw, known: set<string>, now: int): Intake {
    var verdict := Judge(raw, known, now);
    var row := RowFor(src, raw, verdict);
    if HasKey(intake.rows, KeyOf(row)) then intake
    else Intake(intake.rows + [row],
                if verdict.Accept? then intake.outbox + [Published(IngestAccepted(|intake.rows|), now)]
                else intake.outbox)
  }

  /** The rows and the outbox after the first `n` raw events. */
  function AfterEvents(intake: Intake, src: DataSource, raws: seq<Raw>, n: nat, known: set<string>, now: int): Intake
    requires n <= |raws|
  {
    if n == 0 then intake else AfterOne(AfterEvents(intake, src, raws, n - 1, known, now), src, raws[n - 1], known, now)
  }

  function Outcomes(intake: Intake, src: DataSource, raws: seq<Raw>, n: nat, known: set<string>, now: int)
    : (r: seq<Outcome>)
    requires n <= |raws|
    ensures |r| == n
  {
    if n == 0 then []
    else Outcomes(intake, src, raws, n - 1, known, now)
         + [OutcomeOf(AfterEvents(intake, src, raws, n - 1, known, now).rows, src, raws[n - 1], known, now)]
  }

  function HowMany(outcomes: seq<Outcome>, kind: Outcome -> bool, n: nat): nat
    requires n <= |outcomes|
  {
    if n == 0 then 0 else HowMany(outcomes, kind, n - 1) + (if kind(outcomes[n - 1]) then 1 else 0)
  }

  predicate AllStorable(src: DataSource, raws: seq<Raw>, n: nat, known: set<string>, now: int)
    requires n <= |raws|
  {
    forall i :: 0 <= i < n ==> Storable(src, raws[i], known, now)
  }

  datatype BatchResult = BatchResult(accepted: nat, duplicates: nat, quarantined: nat, outcomes: seq<Outcome>)

  datatype Insertion = Raised | Conflicted | Inserted(id: nat)

  class IngestionService {
    var rows: seq<IngestRow>
    var outbox: seq<OutboxEvent>
    var acceptedCount: nat
    var rejectedCount: nat
    var duplicateCount: nat
    var lastEventAt: Option<int>
    var lastSuccessAt: Option<int>

    ghost function State(): Intake
      reads this
    {
      Intake(rows, outbox)
    }

    /** INSERT ... ON CONFLICT DO NOTHING; the id of the new row. */
    method Insert(row: IngestRow, document: Document) returns (r: Insertion)
      modifies this`rows
      ensures r.Raised? <==> Raises(row, document)
      ensures r.Conflicted? <==> !Raises(row, document) && HasKey(old(rows), KeyOf(row))
      ensures rows == if r.Inserted? then old(rows) + [row] else old(rows)
      ensures r.Inserted? ==> r.id == |old(rows)|
    {
      if |row.externalId| > EXTERNAL_ID_WIDTH || document.refused {
        return Raised;
      }
      if row.envelope.Some? {
        var occurredAt := row.envelope.value.occurredAt;
        if occurredAt < FIRST_INSTANT || LAST_INSTANT < occurredAt {
          return Raised;
        }
      }
      if HasKey(rows, KeyOf(row)) {
        return Conflicted;
      }
      r := Inserted(|rows|);
      rows := rows + [row];
    }

    /** None when the insert raises. */
    method StoreAccepted(src: DataSource, e: Envelope, now: int) returns (outcome: Option<Outcome>)
      modifies this`rows, this`outbox
      ensures outcome.None? <==> e.document.refused || !Encodable(e.occurredAt)
      ensures outcome.Some? ==>
        var row := IngestRow(src.organization, e.source, e.eventId, Some(e), Accepted);
        if HasKey(old(rows), KeyOf(row)) then outcome.value == IsDuplicate && State() == old(State())
        else outcome.value == IsAccepted && rows == old(rows) + [row]
             && outbox == old(outbox) + [Published(IngestAccepted(|old(rows)|), now)]
    {
      var r := Insert(IngestRow(src.organization, e.source, e.eventId, Some(e), Accepted), e.document);
      if r.Raised? {
        return None;
      }
      if r.Conflicted? {
        return Some(IsDuplicate);
      }
      outbox := outbox + [Published(IngestAccepted(r.id), now)];
      return Some(IsAccepted);
    }

    /** None when the insert raises. */
    method StoreQuarantine(src: DataSource, document: Document, externalId: string, envelope: Option<Envelope>,
                           reason: Reason)
      returns (outcome: Option<Outcome>)
      modifies this`rows
      ensures var row := IngestRow(src.organization, if envelope.Some? then envelope.value.source else src.key,
                                   externalId, envelope, Quarantined(reason));
              outcome == if Raises(row, document) then None else Some(IsQuarantined(reason))
      ensures outcome.Some? ==>
        var row := IngestRow(src.organization, if envelope.Some? then envelope.value.source else src.key,
                             externalId, envelope, Quarantined(reason));
        rows == if HasKey(old(rows), KeyOf(row)) then old(rows) else old(rows) + [row]
    {
      var source := if envelope.Some? then envelope.value.source else src.key;
      var r := Insert(IngestRow(src.organization, source, externalId, envelope, Quarantined(reason)), document);
      return if r.Raised? then None else Some(IsQuarantined(reason));
    }

    /** One raw event, checked in the order schema version, structure, payload, time, vehicle; None
        when its insert raises. */
    method IngestOne(src: DataSource, raw: Raw, known: set<string>, now: int) returns (outcome: Option<Outcome>)
      modifies this`rows, this`outbox
      ensures outcome.Some? <==> Storable(src, raw, known, now)
      ensures outcome.Some? ==> State() == AfterOne(old(State()), src, raw, known, now)
      ensures outcome.Some? ==> outcome.value == OutcomeOf(old(rows), src, raw, known, now)
    {
      if raw.schemaVersion != "" && raw.schemaVersion != SCHEMA_VERSION {
        outcome := StoreQuarantine(src, raw.document, ExternalId(raw), None, SchemaVersionUnsupported);
        return;
      }
      if raw.parsed.None? {
        outcome := StoreQuarantine(src, raw.document, ExternalId(raw), None, InvalidPayload);
        return;
      }
      var envelope := raw.parsed.value;
      if envelope.payload.InvalidPosition? {
        var reason := if envelope.payload.aboutCoordinates then CoordinatesOutOfRange else InvalidPayload;
        outcome := StoreQuarantine(src, envelope.document, envelope.eventId, Some(envelope), reason);
        return;
      }
      var reason := CheckTimestamp(envelope.occurredAt, now);
      if reason.Some? {
        outcome := StoreQuarantine(src, envelope.document, envelope.eventId, Some(envelope), reason.value);
        return;
      }
      if envelope.vehicle !in known {
        outcome := StoreQuarantine(src, envelope.document, envelope.eventId, Some(envelope), UnknownVehicle);
        return;
      }
      outcome := StoreAccepted(src, envelope, now);
    }

    /** The events of a batch one after the other; None as soon as an insert raises. */
    method IngestEvents(src: DataSource, raws: seq<Raw>, known: set<string>, now: int)
      returns (result: Option<BatchResult>)
      modifies this`rows, this`outbox
      ensures result.Some? <==> AllStorable(src, raws, |raws|, known, now)
      ensures result.Some? ==> State() == AfterEvents(old(State()), src, raws, |raws|, known, now)
      ensures result.Some? ==> result.value.outcomes == Outcomes(old(State()), src, raws, |raws|, known, now)
      ensures result.Some? ==> Tallied(result.value)
    {
      var counted := BatchResult(0, 0, 0, []);
      for i := 0 to |raws|
        invariant AllStorable(src, raws, i, known, now)
        invariant State() == AfterEvents(old(State()), src, raws, i, known, now)
        invariant counted.outcomes == Outcomes(old(State()), src, raws, i, known, now)
        invariant Tallied(counted)
      {
        var outcome := IngestOne(src, raws[i], known, now);
        if outcome.None? {
          return None;
        }
        CountedIsTallied(counted, outcome.value);
        counted := Counted(counted, outcome.value);
      }
      result := Some(counted);
    }

    /** The whole batch, or None when an insert raises: then the caller rolls the request back. */
    method IngestBatch(src: DataSource, raws: seq<Raw>, known: set<string>, now: int)
      returns (result: Option<BatchResult>)
      modifies this
      ensures result.Some? <==> forall i :: 0 <= i < |raws| ==> Keepable(raws[i])
      ensures result.Some? ==> State() == AfterEvents(old(State()), src, raws, |raws|, known, now)
      ensures result.Some? ==> result.value.outcomes == Outcomes(old(State()), src, raws, |raws|, known, now)
      ensures result.Some? ==> Tallied(result.value)
      ensures result.Some? ==> acceptedCount == old(acceptedCount) + result.value.accepted
      ensures result.Some? ==> duplicateCount == old(duplicateCount) + result.value.duplicates
      ensures result.Some? ==> rejectedCount == old(rejectedCount) + result.value.quarantined
      ensures result.Some? ==>
        lastEventAt == Some(now) && lastSuccessAt == if result.value.accepted > 0 then Some(now) else old(lastSuccessAt)
    {
      BatchGoesThroughIff(src, raws, known, now);
      result := IngestEvents(src, raws, known, now);
      if result.None? {
        return;
      }
      acceptedCount := acceptedCount + result.value.accepted;
      rejectedCount := rejectedCount + result.value.quarantined;
      duplicateCount := duplicateCount + result.value.duplicates;
      lastEventAt := Some(now);
      if result.value.accepted > 0 {
        lastSuccessAt := Some(now);
      }
    }
  }

  function Counted(r: BatchResult, o: Outcome): BatchResult {
    var listed := r.(outcomes := r.outcomes + [o]);
    match o
    case IsAccepted => listed.(accepted := r.accepted + 1)
    case IsDuplicate => listed.(duplicates := r.duplicates + 1)
    case IsQuarantined(_) => listed.(quarantined := r.quarantined + 1)
  }

  /** The counts are those of the outcomes. */
  ghost predicate Tallied(r: BatchResult) {
    && r.accepted == HowMany(r.outcomes, (o: Outcome) => o.IsAccepted?, |r.outcomes|)
    && r.duplicates == HowMany(r.outcomes, (o: Outcome) => o.IsDuplicate?, |r.outcomes|)
    && r.quarantined == HowMany(r.outcomes, (o: Outcome) => o.IsQuarantined?, |r.outcomes|)
    && r.accepted + r.duplicates + r.quarantined == |r.outcomes|
  }

  lemma {:induction false} HowManyOfPrefix(outcomes: seq<Outcome>, more: seq<Outcome>, kind: Outcome -> bool, n: nat)
    requires n <= |outcomes| && n <= |more| && forall i :: 0 <= i < n ==> more[i] == outcomes[i]
    ensures HowMany(more, kind, n) == HowMany(outcomes, kind, n)
  {
    if n > 0 { HowManyOfPrefix(outcomes, more, kind, n - 1); }
  }

  lemma CountedIsTallied(r: BatchResult, o: Outcome)
    requires Tallied(r)
    ensures Tallied(Counted(r, o))
  {
    HowManyOfPrefix(r.outcomes, r.outcomes + [o], (o: Outcome) => o.IsAccepted?, |r.outcomes|);
    HowManyOfPrefix(r.outcomes, r.outcomes + [o], (o: Outcome) => o.IsDuplicate?, |r.outcomes|);
    HowManyOfPrefix(r.outcomes, r.outcomes + [o], (o: Outcome) => o.IsQuarantined?, |r.outcomes|);
  }

  // ---------------------------------------------------------------- one row per natural key

  /** The natural key of a raw event of a source. */
  function RawKey(src: DataSource, raw: Raw): Key {
    if PassesGate(raw) && raw.parsed.Some?
    then Key(src.organization, raw.parsed.value.source, raw.parsed.value.eventId)
    else Key(src.organization, src.key, ExternalId(raw))
  }

  /** Whatever the verdict, a raw event is stored under one and the same key: the verdict may
      change with the clock and the fleet, the key does not. */
  lemma KeyIsFixed(src: DataSource, raw: Raw, known: set<string>, now: int)
    ensures KeyOf(RowFor(src, raw, Judge(raw, known, now))) == RawKey(src, raw)
  {}

  /** What storing needs of a raw event: of a well-formed one a document that is taken and an instant
      in universal time of the years 1 to 9999, of any other one a document that is taken and an id,
      or no id, of at most 200 characters. */
  predicate Keepable(raw: Raw) {
    if PassesGate(raw) && raw.parsed.Some?
    then !raw.parsed.value.document.refused && Encodable(raw.parsed.value.occurredAt)
    else !raw.document.refused && |raw.eventId| <= 200
  }

  /** Batches go through all or nothing, exactly when every event can be kept, whatever the clock
      and the fleet make of them. */
  lemma BatchGoesThroughIff(src: DataSource, raws: seq<Raw>, known: set<string>, now: int)
    ensures AllStorable(src, raws, |raws|, known, now) <==> forall i :: 0 <= i < |raws| ==> Keepable(raws[i])
  {
    forall i | 0 <= i < |raws| ensures Storable(src, raws[i], known, now) <==> Keepable(raws[i]) {
      KeyIsFixed(src, raws[i], known, now);
    }
  }

  /** A well-formed event of the truck. */
  function TruckEvent(id: EventId, occurredAt: int, document: Document): Raw {
    Raw(id, "1.0", document, Some(Envelope("gps", id, "truck", occurredAt, NotAPosition, document)))
  }

  /** Concretely: a good event alone is accepted. It is lost with the batch when it is sent together
      with an event whose rejection cannot be stored, because its id has 201 characters or because
      its instant is 14 hours before the year 1, or with a valid one whose text holds U+0000. */
  lemma OneOverlongIdLosesTheBatch()
    ensures var src, known := DataSource(0, "gps"), {"truck"};
            var good := TruckEvent("1", 0, Document(false));
            var overlong := Raw(seq(201, _ => 'x'), "1.0", Document(false), None);
            var withNul := TruckEvent("2", 0, Document(true));
            var ancient := TruckEvent("3", FIRST_INSTANT - 14 * 3600 * 1_000_000, Document(false));
            && AllStorable(src, [good], 1, known, 0) && OutcomeOf([], src, good, known, 0) == IsAccepted
            && Judge(overlong, known, 0).Reject? && !AllStorable(src, [good, overlong], 2, known, 0)
            && Judge(withNul, known, 0).Accept? && !AllStorable(src, [good, withNul], 2, known, 0)
            && Judge(ancient, known, 0).Reject? && !AllStorable(src, [good, ancient], 2, known, 0)
  {
    var src, known := DataSource(0, "gps"), {"truck"};
    var good := TruckEvent("1", 0, Document(false));
    var overlong := Raw(seq(201, _ => 'x'), "1.0", Document(false), None);
    var withNul := TruckEvent("2", 0, Document(true));
    var ancient := TruckEvent("3", FIRST_INSTANT - 14 * 3600 * 1_000_000, Document(false));
    BatchGoesThroughIff(src, [good], known, 0);
    BatchGoesThroughIff(src, [good, overlong], known, 0);
    BatchGoesThroughIff(src, [good, withNul], known, 0);
    BatchGoesThroughIff(src, [good, ancient], known, 0);
    assert !Keepable([good, overlong][1]) && !Keepable([good, withNul][1]) && !Keepable([good, ancient][1]);
  }

  ghost predicate KeysUnique(rows: seq<IngestRow>) {
    forall i, j :: 0 <= i < j < |rows| ==> KeyOf(rows[i]) != KeyOf(rows[j])
  }

  /** The keys stored after a batch are the keys stored before and those of the batch. */
  lemma {:induction false} KeysAfterBatch(intake: Intake, src: DataSource, raws: seq<Raw>, n: nat, known: set<string>,
                                          now: int, key: Key)
    requires n <= |raws|
    ensures HasKey(AfterEvents(intake, src, raws, n, known, now).rows, key)
       <==> HasKey(intake.rows, key) || exists i :: 0 <= i < n && RawKey(src, raws[i]) == key
  {
    if n > 0 {
      KeysAfterBatch(intake, src, raws, n - 1, known, now, key);
      var before := AfterEvents(intake, src, raws, n - 1, known, now);
      KeyAfterOne(before, src, raws[n - 1], known, now, key);
    }
  }

  lemma KeyAfterOne(intake: Intake, src: DataSource, raw: Raw, known: set<string>, now: int, key: Key)
    ensures HasKey(AfterOne(intake, src, raw, known, now).rows, key)
      <==> HasKey(intake.rows, key) || RawKey(src, raw) == key
  {
    KeyIsFixed(src, raw, known, now);
    var after := AfterOne(intake, src, raw, known, now).rows;
    if HasKey(intake.rows, key) {
      var i :| 0 <= i < |intake.rows| && KeyOf(intake.rows[i]) == key;
      assert KeyOf(after[i]) == key;
    } else if RawKey(src, raw) == key {
      assert KeyOf(after[|intake.rows|]) == key;
    }
  }

  /** A batch appends rows and events only, and never stores a natural key twice. */
  lemma {:induction false} BatchAppends(intake: Intake, src: DataSource, raws: seq<Raw>, n: nat, known: set<string>,
                                        now: int)
    requires n <= |raws| && KeysUnique(intake.rows)
    ensures var after := AfterEvents(intake, src, raws, n, known, now);
            && KeysUnique(after.rows)
            && intake.rows <= after.rows && intake.outbox <= after.outbox
  {
    if n > 0 {
      BatchAppends(intake, src, raws, n - 1, known, now);
    }
  }

  /** Submitting events again, at any later time and with any fleet, stores and announces
      nothing as long as their keys are known, however they are judged then. */
  lemma {:induction false} KnownKeysAddNothing(intake: Intake, src: DataSource, raws: seq<Raw>, n: nat,
                                               known: set<string>, now: int)
    requires n <= |raws| && forall i :: 0 <= i < n ==> HasKey(intake.rows, RawKey(src, raws[i]))
    ensures AfterEvents(intake, src, raws, n, known, now) == intake
    ensures forall i :: 0 <= i < n ==> !Outcomes(intake, src, raws, n, known, now)[i].IsAccepted?
  {
    if n > 0 {
      KnownKeysAddNothing(intake, src, raws, n - 1, known, now);
      KeyIsFixed(src, raws[n - 1], known, now);
    }
  }

  /** Ingestion is idempotent: the same batch again leaves every row and the outbox as they are. */
  lemma ReplayAddsNothing(intake: Intake, src: DataSource, raws: seq<Raw>, known: set<string>, now: int,
                          knownLater: set<string>, later: int)
    ensures var once := AfterEvents(intake, src, raws, |raws|, known, now);
            AfterEvents(once, src, raws, |raws|, knownLater, later) == once
  {
    var once := AfterEvents(intake, src, raws, |raws|, known, now);
    forall i | 0 <= i < |raws| ensures HasKey(once.rows, RawKey(src, raws[i])) {
      KeysAfterBatch(intake, src, raws, |raws|, known, now, RawKey(src, raws[i]));
    }
    KnownKeysAddNothing(once, src, raws, |raws|, knownLater, later);
  }

  /** An event is stored as accepted exactly when its schema is supported, it is well formed, its
      document and instant can be stored, it is at most three days old and five minutes ahead, its
      vehicle is known, and its key was never stored. A quarantined row holds its key like any
      other: a corrected retry under the same id comes too late. */
  lemma AcceptedIff(rows: seq<IngestRow>, src: DataSource, raw: Raw, known: set<string>, now: int)
    ensures Storable(src, raw, known, now) && OutcomeOf(rows, src, raw, known, now).IsAccepted?
       <==> && (raw.schemaVersion == "" || raw.schemaVersion == "1.0")
            && raw.parsed.Some? && !raw.parsed.value.payload.InvalidPosition?
            && !raw.parsed.value.document.refused && Encodable(raw.parsed.value.occurredAt)
            && now - 3 * 24 * 3600 * 1_000_000 <= raw.parsed.value.occurredAt <= now + 5 * 60 * 1_000_000
            && raw.parsed.value.vehicle in known
            && forall i :: 0 <= i < |rows| ==> KeyOf(rows[i]) != RawKey(src, raw)
  {
    KeyIsFixed(src, raw, known, now);
  }

  /** Why an event is rejected, whatever is stored: the first of the checks that it fails, in the order
      schema version, structure, payload, time, vehicle. */
  lemma WhyRejected(rows: seq<IngestRow>, src: DataSource, raw: Raw, known: set<string>, now: int)
    ensures var outcome := OutcomeOf(rows, src, raw, known, now);
            var supported := raw.schemaVersion == "" || raw.schemaVersion == "1.0";
            && (outcome == IsQuarantined(SchemaVersionUnsupported) <==> !supported)
            && (supported && raw.parsed.None? ==> outcome == IsQuarantined(InvalidPayload))
            && (supported && raw.parsed.Some? ==>
                  var e := raw.parsed.value;
                  var invalid := e.payload.InvalidPosition?;
                  var early := e.occurredAt > now + 5 * 60 * 1_000_000;
                  var late := e.occurredAt < now - 3 * 24 * 3600 * 1_000_000;
                  && (outcome == IsQuarantined(CoordinatesOutOfRange) <==> invalid && e.payload.aboutCoordinates)
                  && (outcome == IsQuarantined(InvalidPayload) <==> invalid && !e.payload.aboutCoordinates)
                  && (outcome == IsQuarantined(TimestampInFuture) <==> !invalid && early)
                  && (outcome == IsQuarantined(TimestampTooOld) <==> !invalid && late)
                  && (outcome == IsQuarantined(UnknownVehicle)
                      <==> !invalid && !early && !late && e.vehicle !in known))
  {}

  /** The row is that of the event: under the source, the id and with the message of a well-formed event,
      and otherwise under the data source and the id that was sent; accepted, or quarantined for the
      reason of its outcome. */
  ghost predicate StoredAs(row: IngestRow, src: DataSource, raw: Raw, known: set<string>, now: int) {
    && row.organization == src.organization
    && row.envelope == (if raw.schemaVersion in ["", "1.0"] then raw.parsed else None)
    && row.source == (if row.envelope.Some? then row.envelope.value.source else src.key)
    && row.externalId == (if row.envelope.Some? then row.envelope.value.eventId
                          else if raw.eventId == "" then "(bilinmiyor)" else raw.eventId)
    && row.status == match OutcomeOf([], src, raw, known, now)
                     case IsQuarantined(reason) => Quarantined(reason)
                     case _ => Accepted
  }

  /** Of the events of a batch that share a key that was not stored before, the first is stored, as it is. */
  lemma {:induction false} FirstOfItsKeyIsStored(intake: Intake, src: DataSource, raws: seq<Raw>, n: nat,
                                                 known: set<string>, now: int, i: nat)
    returns (r: nat)
    requires i < n <= |raws| && !HasKey(intake.rows, RawKey(src, raws[i]))
    requires forall j :: 0 <= j < i ==> RawKey(src, raws[j]) != RawKey(src, raws[i])
    ensures var rows := AfterEvents(intake, src, raws, n, known, now).rows;
            |intake.rows| <= r < |rows| && StoredAs(rows[r], src, raws[i], known, now)
    decreases n
  {
    var before := AfterEvents(intake, src, raws, n - 1, known, now);
    if i < n - 1 {
      r := FirstOfItsKeyIsStored(intake, src, raws, n - 1, known, now, i);
      RowStays(before, src, raws[n - 1], known, now, r);
    } else {
      KeysAfterBatch(intake, src, raws, n - 1, known, now, RawKey(src, raws[i]));
      RowsOnlyGrow(intake, src, raws, n - 1, known, now);
      NewKeyIsStored(before, src, raws[i], known, now);
      r := |before.rows|;
    }
  }

  lemma NewKeyIsStored(before: Intake, src: DataSource, raw: Raw, known: set<string>, now: int)
    requires !HasKey(before.rows, RawKey(src, raw))
    ensures var after := AfterOne(before, src, raw, known, now);
            |after.rows| == |before.rows| + 1 && StoredAs(after.rows[|before.rows|], src, raw, known, now)
  {
    KeyIsFixed(src, raw, known, now);
  }

  lemma RowStays(before: Intake, src: DataSource, raw: Raw, known: set<string>, now: int, r: nat)
    requires r < |before.rows|
    ensures r < |AfterOne(before, src, raw, known, now).rows|
    ensures AfterOne(before, src, raw, known, now).rows[r] == before.rows[r]
  {}

  lemma {:induction false} RowsOnlyGrow(intake: Intake, src: DataSource, raws: seq<Raw>, n: nat, known: set<string>,
                                        now: int)
    requires n <= |raws|
    ensures |intake.rows| <= |AfterEvents(intake, src, raws, n, known, now).rows|
  {
    if n > 0 { RowsOnlyGrow(intake, src, raws, n - 1, known, now); }
  }

  /** Concretely: an event sent six minutes too early is quarantined, and sent again ten minutes
      later, now in order, it is a duplicate. */
  lemma QuarantineHoldsTheKey()
    ensures var e := Envelope("gps", "1", "truck", 6 * 60 * 1_000_000, NotAPosition, Document(false));
            var raw, src := Raw("1", SCHEMA_VERSION, Document(false), Some(e)), DataSource(0, "gps");
            var early := AfterEvents(Intake([], []), src, [raw], 1, {"truck"}, 0);
            && OutcomeOf([], src, raw, {"truck"}, 0) == IsQuarantined(TimestampInFuture)
            && OutcomeOf(early.rows, src, raw, {"truck"}, 10 * 60 * 1_000_000) == IsDuplicate
  {
    var e := Envelope("gps", "1", "truck", 6 * 60 * 1_000_000, NotAPosition, Document(false));
    var raw, src := Raw("1", SCHEMA_VERSION, Document(false), Some(e)), DataSource(0, "gps");
    KeysAfterBatch(Intake([], []), src, [raw], 1, {"truck"}, 0, RawKey(src, raw));
    KeyIsFixed(src, raw, {"truck"}, 10 * 60 * 1_000_000);
    assert [raw][0] == raw;
  }

  // ---------------------------------------------------------------- what is announced

  /** The accepted rows from `from` up to `to`. */
  function AcceptedRows(rows: seq<IngestRow>, from: nat, to: nat): seq<nat>
    requires from <= to <= |rows|
  {
    if from == to then []
    else
      var before := AcceptedRows(rows, from, to - 1);
      if rows[to - 1].status.Accepted? then before + [to - 1] else before
  }

  lemma {:induction false} AcceptedRowsOfPrefix(rows: seq<IngestRow>, more: seq<IngestRow>, from: nat, to: nat)
    requires from <= to <= |rows| && rows <= more
    ensures AcceptedRows(more, from, to) == AcceptedRows(rows, from, to)
  {
    if from < to { AcceptedRowsOfPrefix(rows, more, from, to - 1); }
  }

  function Announcements(ids: seq<nat>, now: int): seq<OutboxEvent> {
    seq(|ids|, i requires 0 <= i < |ids| => Published(IngestAccepted(ids[i]), now))
  }

  /** The rows past the first `from` are accepted or quarantined, and the outbox gained exactly
      one message for each of the `count` accepted ones, in order. */
  ghost predicate Announced(intake: Intake, after: Intake, count: nat, now: int) {
    && intake.rows <= after.rows
    && (forall i :: |intake.rows| <= i < |after.rows| ==> IsFresh(after.rows[i]))
    && after.outbox == intake.outbox + Announcements(AcceptedRows(after.rows, |intake.rows|, |after.rows|), now)
    && |AcceptedRows(after.rows, |intake.rows|, |after.rows|)| == count
  }

  predicate IsFresh(row: IngestRow) {
    (row.status.Accepted? && row.envelope.Some?) || row.status.Quarantined?
  }

  /** Every row stored by a batch is accepted or quarantined; each accepted outcome is one
      accepted row with one message of its own. */
  lemma {:induction false} AcceptedRowsAreAnnounced(intake: Intake, src: DataSource, raws: seq<Raw>, n: nat,
                                                    known: set<string>, now: int)
    requires n <= |raws|
    ensures Announced(intake, AfterEvents(intake, src, raws, n, known, now),
                      HowMany(Outcomes(intake, src, raws, n, known, now), (o: Outcome) => o.IsAccepted?, n), now)
  {
    if n > 0 {
      AcceptedRowsAreAnnounced(intake, src, raws, n - 1, known, now);
      var outcomes := Outcomes(intake, src, raws, n - 1, known, now);
      HowManyOfPrefix(outcomes, Outcomes(intake, src, raws, n, known, now), (o: Outcome) => o.IsAccepted?, n - 1);
      AnnouncedAfterOne(intake, AfterEvents(intake, src, raws, n - 1, known, now), src, raws[n - 1], known, now,
                        HowMany(outcomes, (o: Outcome) => o.IsAccepted?, n - 1));
    } else {
      assert Announcements([], now) == [];
    }
  }

  lemma AnnouncedAfterOne(intake: Intake, before: Intake, src: DataSource, raw: Raw, known: set<string>, now: int,
                          count: nat)
    requires Announced(intake, before, count, now)
    ensures Announced(intake, AfterOne(before, src, raw, known, now),
                      count + (if OutcomeOf(before.rows, src, raw, known, now).IsAccepted? then 1 else 0), now)
  {
    var after := AfterOne(before, src, raw, known, now);
    var ids := AcceptedRows(before.rows, |intake.rows|, |before.rows|);
    AcceptedRowsOfPrefix(before.rows, after.rows, |intake.rows|, |before.rows|);
    assert Announcements(ids + [|before.rows|], now)
      == Announcements(ids, now) + [Published(IngestAccepted(|before.rows|), now)];
  }
}
