/** The two file-backed voice repositories, with injected I/O failures.

    Voice ids are taken as already accepted by the id pattern. */
module VoiceRepos {
  import opened Wrappers

  type Id = string
  type Bytes = seq<bv8>
  type Instant = int

  datatype Source = Seed | Crud

  datatype VoiceRecord = VoiceRecord(
    id: Id, transcript: string, language: string, consent: bool, numberLang: string,
    targetDb: real, temperature: real, topP: real, maxSentences: int,
    source: Source, createdAt: Instant, updatedAt: Instant)

  /** One JSON row; a missing key is `None`. */
  datatype Row = Row(
    id: Id, transcript: Option<string>, language: string, consent: Option<bool>, numberLang: Option<string>,
    targetDb: Option<real>, temperature: Option<real>, topP: Option<real>, maxSentences: Option<int>,
    source: Option<Source>, createdAt: Option<Instant>, updatedAt: Option<Instant>)

  function Serialize(r: VoiceRecord): Row {
    Row(r.id, Some(r.transcript), r.language, Some(r.consent), Some(r.numberLang), Some(r.targetDb),
        Some(r.temperature), Some(r.topP), Some(r.maxSentences), Some(r.source),
        Some(r.createdAt), Some(r.updatedAt))
  }

  function Or<T>(o: Option<T>, default: T): T {
    if o.Some? then o.value else default
  }

  function Deserialize(row: Row, now: Instant): VoiceRecord {
    VoiceRecord(row.id, Or(row.transcript, ""), row.language, Or(row.consent, false), Or(row.numberLang, ""),
                Or(row.targetDb, -20.0), Or(row.temperature, 0.8), Or(row.topP, 0.95), Or(row.maxSentences, 2),
                Or(row.source, Crud), Or(row.createdAt, now), Or(row.updatedAt, now))
  }

  /** `metadata.json`; malformed when it is not a JSON object or a row lacks its id or language. */
  datatype Document = Absent | Blank | Malformed | Rows(rows: map<Id, Row>)

  /** Which I/O step of a repository call raises, if any. */
  datatype Fault = NoFault | LoadFails | TempFails | WriteFails | ReplaceFails

  predicate StopsWrite(f: Fault) {
    f.TempFails? || f.WriteFails? || f.ReplaceFails?
  }

  /** To a caller a malformed document is a load that raises. */
  function Seen(f: Fault, d: Document): Fault {
    if d.Malformed? then LoadFails else f
  }

  datatype StoreError = NotFound | AlreadyExists | IoFailed | BadDocument

  datatype RepoOp = Create(record: VoiceRecord) | Update(record: VoiceRecord) | Delete(id: Id)

  /** A map from id to record, and what each operation does to it under a fault. */
  function RepoStep(m: map<Id, VoiceRecord>, op: RepoOp, f: Fault): (map<Id, VoiceRecord>, Option<StoreError>) {
    if f.LoadFails? then (m, Some(IoFailed))
    else
      match op
      case Create(r) =>
        if r.id in m then (m, Some(AlreadyExists))
        else if StopsWrite(f) then (m, Some(IoFailed))
        else (m[r.id := r], None)
      case Update(r) =>
        if r.id !in m then (m, Some(NotFound))
        else if StopsWrite(f) then (m, Some(IoFailed))
        else (m[r.id := r], None)
      case Delete(id) =>
        if id !in m then (m, Some(NotFound))
        else if StopsWrite(f) then (m, Some(IoFailed))
        else (m - {id}, None)
  }

  function Subject(op: RepoOp): Id {
    match op
    case Create(r) => r.id
    case Update(r) => r.id
    case Delete(id) => id
  }

  /** When an operation succeeds, which error it reports otherwise, and what it leaves: the map
      as it was, or the same map with the subject's record stored or gone. */
  lemma RepoStepSpec(m: map<Id, VoiceRecord>, op: RepoOp, f: Fault)
    ensures var (after, error) := RepoStep(m, op, f);
      && (error.None? <==> f.NoFault? && (Subject(op) in m <==> !op.Create?))
      && (error == Some(AlreadyExists) <==> !f.LoadFails? && op.Create? && Subject(op) in m)
      && (error == Some(NotFound) <==> !f.LoadFails? && !op.Create? && Subject(op) !in m)
      && (error.Some? ==> after == m && error.value != BadDocument)
      && (error.None? ==>
            && (forall id | id != Subject(op) :: id in after <==> id in m)
            && (forall id | id != Subject(op) && id in m :: after[id] == m[id])
            && (if op.Delete? then Subject(op) !in after
                else Subject(op) in after && after[Subject(op)] == op.record))
  { }

  /** A row gives each key it has, and for each it leaves out the default; the two timestamps
      default to the time of reading. */
  lemma RowReads(row: Row, now: Instant)
    ensures var r := Deserialize(row, now);
      && r.id == row.id && r.language == row.language
      && r.transcript == (if row.transcript.Some? then row.transcript.value else "")
      && r.consent == (if row.consent.Some? then row.consent.value else false)
      && r.numberLang == (if row.numberLang.Some? then row.numberLang.value else "")
      && r.targetDb == (if row.targetDb.Some? then row.targetDb.value else -20.0)
      && r.temperature == (if row.temperature.Some? then row.temperature.value else 0.8)
      && r.topP == (if row.topP.Some? then row.topP.value else 0.95)
      && r.maxSentences == (if row.maxSentences.Some? then row.maxSentences.value else 2)
      && r.source == (if row.source.Some? then row.source.value else Crud)
      && r.createdAt == (if row.createdAt.Some? then row.createdAt.value else now)
      && r.updatedAt == (if row.updatedAt.Some? then row.updatedAt.value else now)
  { }

  /** Round trip: a record written as a row reads back as itself, at any time. */
  lemma RowRoundTrip(r: VoiceRecord, now: Instant)
    ensures Deserialize(Serialize(r), now) == r
  { }

  class FsJsonMetadataRepository {
    var document: Document
    /** Temp files left in the store directory. */
    var temps: nat

    /** The records a reader at time `now` sees; the clock stands in for missing timestamps. */
    ghost function RecordsAt(now: Instant): map<Id, VoiceRecord>
      reads this
    {
      if document.Rows? then map id | id in document.rows :: Deserialize(document.rows[id], now) else map[]
    }

    function LoadError(f: Fault): Option<StoreError>
      reads this
    {
      if f.LoadFails? then Some(IoFailed) else if document.Malformed? then Some(BadDocument) else None
    }

    method LoadAll(f: Fault, now: Instant) returns (r: Result<map<Id, VoiceRecord>, StoreError>)
      ensures r == if LoadError(f).Some? then Err(LoadError(f).value) else Ok(RecordsAt(now))
    {
      if f.LoadFails? {
        return Err(IoFailed);
      }
      match document
      case Absent => r := Ok(map[]);
      case Blank => r := Ok(map[]);
      case Malformed => r := Err(BadDocument);
      case Rows(rows) => r := Ok(map id | id in rows :: Deserialize(rows[id], now));
    }

    /** Write a temp file, then rename it over the document; clean up on failure. A document
        written here reads the same at any time. */
    method AtomicWrite(records: map<Id, VoiceRecord>, f: Fault) returns (r: Option<StoreError>)
      modifies this
      ensures temps == old(temps)
      ensures r == if StopsWrite(f) then Some(IoFailed) else None
      ensures r.Some? ==> document == old(document)
      ensures r.None? ==> document.Rows? && forall t :: RecordsAt(t) == records
    {
      var rows := map id | id in records :: Serialize(records[id]);
      if f.TempFails? {
        return Some(IoFailed);
      }
      temps := temps + 1;
      if f.WriteFails? || f.ReplaceFails? {
        temps := temps - 1;
        return Some(IoFailed);
      }
      document, temps := Rows(rows), temps - 1;
      assert forall t :: RecordsAt(t) == records;
      r := None;
    }

    method Get(id: Id, f: Fault, now: Instant) returns (r: Result<VoiceRecord, StoreError>)
      ensures r == if LoadError(f).Some? then Err(LoadError(f).value)
                   else if id in RecordsAt(now) then Ok(RecordsAt(now)[id]) else Err(NotFound)
    {
      var loaded := LoadAll(f, now);
      if loaded.Err? {
        return Err(loaded.error);
      }
      if id !in loaded.value {
        return Err(NotFound);
      }
      r := Ok(loaded.value[id]);
    }

    method Exists(id: Id, f: Fault, now: Instant) returns (r: Result<bool, StoreError>)
      ensures r == if LoadError(f).Some? then Err(LoadError(f).value) else Ok(id in RecordsAt(now))
    {
      var loaded := LoadAll(f, now);
      if loaded.Err? {
        return Err(loaded.error);
      }
      r := Ok(id in loaded.value);
    }

    method CreateRecord(record: VoiceRecord, f: Fault, now: Instant) returns (r: Option<StoreError>)
      modifies this
      ensures temps == old(temps)
      ensures r == if old(LoadError(f)).Some? then old(LoadError(f))
                   else RepoStep(old(RecordsAt(now)), Create(record), f).1
      ensures RecordsAt(now) == RepoStep(old(RecordsAt(now)), Create(record), Seen(f, old(document))).0
      ensures r.Some? ==> document == old(document)
      ensures r.None? ==> document.Rows? && forall t :: RecordsAt(t) == RecordsAt(now)
    {
      var loaded := LoadAll(f, now);
      if loaded.Err? {
        return Some(loaded.error);
      }
      if record.id in loaded.value {
        return Some(AlreadyExists);
      }
      r := AtomicWrite(loaded.value[record.id := record], f);
    }

    method UpdateRecord(record: VoiceRecord, f: Fault, now: Instant) returns (r: Option<StoreError>)
      modifies this
      ensures temps == old(temps)
      ensures r == if old(LoadError(f)).Some? then old(LoadError(f))
                   else RepoStep(old(RecordsAt(now)), Update(record), f).1
      ensures RecordsAt(now) == RepoStep(old(RecordsAt(now)), Update(record), Seen(f, old(document))).0
      ensures r.Some? ==> document == old(document)
      ensures r.None? ==> document.Rows? && forall t :: RecordsAt(t) == RecordsAt(now)
    {
      var loaded := LoadAll(f, now);
      if loaded.Err? {
        return Some(loaded.error);
      }
      if record.id !in loaded.value {
        return Some(NotFound);
      }
      r := AtomicWrite(loaded.value[record.id := record], f);
    }

    method DeleteRecord(id: Id, f: Fault, now: Instant) returns (r: Option<StoreError>)
      modifies this
      ensures temps == old(temps)
      ensures r == if old(LoadError(f)).Some? then old(LoadError(f))
                   else RepoStep(old(RecordsAt(now)), Delete(id), f).1
      ensures RecordsAt(now) == RepoStep(old(RecordsAt(now)), Delete(id), Seen(f, old(document))).0
      ensures r.Some? ==> document == old(document)
      ensures r.None? ==> document.Rows? && forall t :: RecordsAt(t) == RecordsAt(now)
    {
      var loaded := LoadAll(f, now);
      if loaded.Err? {
        return Some(loaded.error);
      }
      if id !in loaded.value {
        return Some(NotFound);
      }
      r := AtomicWrite(loaded.value - {id}, f);
    }
  }

  class FsBlobRepository {
    var blobs: map<Id, Bytes>
    var temps: nat

    method Put(id: Id, data: Bytes, f: Fault) returns (r: Option<StoreError>)
      modifies this
      ensures temps == old(temps)
      ensures r == if StopsWrite(f) then Some(IoFailed) else None
      ensures blobs == if r.Some? then old(blobs) else old(blobs)[id := data]
    {
      if f.TempFails? {
        return Some(IoFailed);
      }
      temps := temps + 1;
      if f.WriteFails? || f.ReplaceFails? {
        temps := temps - 1;
        return Some(IoFailed);
      }
      blobs, temps := blobs[id := data], temps - 1;
      r := None;
    }

    method Get(id: Id, f: Fault) returns (r: Result<Bytes, StoreError>)
      ensures r == if id !in blobs then Err(NotFound) else if f.LoadFails? then Err(IoFailed) else Ok(blobs[id])
    {
      if id !in blobs {
        return Err(NotFound);
      }
      if f.LoadFails? {
        return Err(IoFailed);
      }
      r := Ok(blobs[id]);
    }

    method Exists(id: Id, f: Fault) returns (r: Result<bool, StoreError>)
      ensures r == if f.LoadFails? then Err(IoFailed) else Ok(id in blobs)
    {
      if f.LoadFails? {
        return Err(IoFailed);
      }
      r := Ok(id in blobs);
    }

    method Remove(id: Id, f: Fault) returns (r: Option<StoreError>)
      modifies this`blobs
      ensures r == if id !in old(blobs) then Some(NotFound) else if StopsWrite(f) then Some(IoFailed) else None
      ensures blobs == if r.Some? then old(blobs) else old(blobs) - {id}
    {
      if id !in blobs {
        return Some(NotFound);
      }
      if StopsWrite(f) {
        return Some(IoFailed);
      }
      blobs := blobs - {id};
      r := None;
    }
  }

  // ---------------------------------------------------------------- histories of one repository

  datatype Attempt = Attempt(op: RepoOp, fault: Fault)

  function RunAttempts(m: map<Id, VoiceRecord>, attempts: seq<Attempt>): map<Id, VoiceRecord>
    decreases |attempts|
  {
    if attempts == [] then m
    else RunAttempts(RepoStep(m, attempts[0].op, attempts[0].fault).0, attempts[1..])
  }

  /** The operations of a history that reported success, without their faults. */
  function Committed(m: map<Id, VoiceRecord>, attempts: seq<Attempt>): seq<Attempt>
    decreases |attempts|
  {
    if attempts == [] then []
    else
      var (m', error) := RepoStep(m, attempts[0].op, attempts[0].fault);
      (if error.None? then [Attempt(attempts[0].op, NoFault)] else []) + Committed(m', attempts[1..])
  }

  /** Failed operations leave no trace: a history with faults ends where the same history
      without its failed operations, run fault-free, ends. */
  lemma {:induction false} FailuresLeaveNoTrace(m: map<Id, VoiceRecord>, attempts: seq<Attempt>)
    ensures RunAttempts(m, attempts) == RunAttempts(m, Committed(m, attempts))
    decreases |attempts|
  {
    if attempts != [] {
      var (m', error) := RepoStep(m, attempts[0].op, attempts[0].fault);
      FailuresLeaveNoTrace(m', attempts[1..]);
      var rest := Committed(m', attempts[1..]);
      if error.None? {
        var first := Attempt(attempts[0].op, NoFault);
        assert ([first] + rest)[1..] == rest;
        assert RepoStep(m, first.op, first.fault) == (m', None);
      } else {
        assert Committed(m, attempts) == rest;
      }
    }
  }
}
