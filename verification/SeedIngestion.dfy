/** Seed-file ingestion (`VoiceSeedIngestor.ingest_once`): validate the whole file, then add
    the voices whose ids are missing, blob first. */
module SeedIngestion {
  import opened VoiceRepos
  import opened VoiceHandlers
  import opened Wrappers
  import Text

  datatype Json =
    | JNull
    | JBool(flag: bool)
    | JInt(n: int)
    | JReal(x: real)
    | JString(text: string)
    | JArray
    | JObject(fields: map<string, Json>)

  /** What stands at a path when the file is validated; looking it up may itself raise. */
  datatype FileState = Readable(data: Bytes) | Unreadable | Directory | LookupRaises

  /** The seed file: not there, impossible to read or decode, not JSON, not an object, or its
      entries in file order. */
  datatype SeedFile = NoFile | Undecodable | NotJson | NotAnObject | Entries(entries: seq<(Id, Json)>)

  datatype SeedEntry = SeedEntry(
    id: Id, audioPath: string, transcript: string, language: string, numberLang: string,
    temperature: real, topP: real, targetDb: real, maxSentences: int)

  /** How validation stops: by its own error, which the pass logs, or by any other exception,
      which leaves the pass. */
  datatype SeedError = Invalid | Escapes

  const TWO_TO_THE_64 := 0x1_0000_0000_0000_0000
  const TWO_TO_THE_320 := TWO_TO_THE_64 * TWO_TO_THE_64 * TWO_TO_THE_64 * TWO_TO_THE_64 * TWO_TO_THE_64
  const TWO_TO_THE_960 := TWO_TO_THE_320 * TWO_TO_THE_320 * TWO_TO_THE_320

  /** Half a unit above the largest double: integers from here on overflow. */
  const FLOAT_LIMIT := 0x3F_FFFF_FFFF_FFFF * 1024 * TWO_TO_THE_960

  /** `isinstance(x, (int, float))`, which booleans satisfy too. */
  predicate IsNumber(j: Json) {
    j.JBool? || j.JInt? || j.JReal?
  }

  /** `float(x)` on a number. */
  function AsFloat(j: Json): Option<real>
    requires IsNumber(j)
  {
    match j
    case JBool(b) => Some(if b then 1.0 else 0.0)
    case JInt(n) => if -FLOAT_LIMIT < n < FLOAT_LIMIT then Some(n as real) else None
    case JReal(x) => Some(x)
  }

  /** `isinstance(x, int)` */
  function AsInteger(j: Json): Option<int> {
    match j
    case JBool(b) => Some(if b then 1 else 0)
    case JInt(n) => Some(n)
    case _ => None
  }

  function Field(body: map<string, Json>, name: string, default: Json): Json {
    if name in body then body[name] else default
  }

  /** A number within bounds, or how the check of it stops. */
  function InRange(j: Json, ok: real -> bool): Result<real, SeedError> {
    if !IsNumber(j) then Err(Invalid)
    else
      match AsFloat(j)
      case None => Err(Escapes)
      case Some(x) => if ok(x) then Ok(x) else Err(Invalid)
  }

  /** What the audio path of an entry comes to. */
  function CheckFile(path: string, files: map<string, FileState>): Result<Bytes, SeedError> {
    if path !in files then Err(Invalid)
    else
      match files[path]
      case Readable(data) => Ok(data)
      case LookupRaises => Err(Escapes)
      case _ => Err(Invalid)
  }

  /** `_validate_entry`; `idOk` is the voice-id pattern. */
  function ValidateEntry(id: Id, body: Json, files: map<string, FileState>, idOk: Id -> bool)
    : Result<SeedEntry, SeedError>
  {
    if !idOk(id) || !body.JObject? then Err(Invalid)
    else
      var path := Field(body.fields, "ref_audio_path", JNull);
      var transcript := Field(body.fields, "ref_text", JString(""));
      var language := Field(body.fields, "language", JNull);
      var numberLang := Field(body.fields, "number_lang", JString(""));
      var temperature := InRange(Field(body.fields, "temperature", JReal(0.8)), x => 0.0 <= x <= 2.0);
      var topP := InRange(Field(body.fields, "top_p", JReal(0.95)), x => 0.0 < x <= 1.0);
      var targetDb := Field(body.fields, "target_db", JReal(-20.0));
      var maxSentences := AsInteger(Field(body.fields, "max_sentences_per_chunk", JInt(2)));
      if !path.JString? || path.text == "" then Err(Invalid)
      else if !transcript.JString? then Err(Invalid)
      else if !language.JString? || Text.Strip(language.text) == "" then Err(Invalid)
      else if !numberLang.JString? then Err(Invalid)
      else if temperature.Err? then Err(temperature.error)
      else if topP.Err? then Err(topP.error)
      else if !IsNumber(targetDb) then Err(Invalid)
      else if maxSentences.None? || maxSentences.value < 1 then Err(Invalid)
      else if CheckFile(path.text, files).Err? then Err(CheckFile(path.text, files).error)
      else if AsFloat(targetDb).None? then Err(Escapes)
      else Ok(SeedEntry(id, path.text, transcript.text, language.text, numberLang.text,
                        temperature.value, topP.value, AsFloat(targetDb).value, maxSentences.value))
  }

  /** `_parse_and_validate` on an object's entries: all of them, or the first error. */
  function ValidateAll(raw: seq<(Id, Json)>, files: map<string, FileState>, idOk: Id -> bool)
    : Result<seq<SeedEntry>, SeedError>
  {
    if raw == [] then Ok([])
    else
      match ValidateAll(raw[..|raw| - 1], files, idOk)
      case Err(e) => Err(e)
      case Ok(before) =>
        match ValidateEntry(raw[|raw| - 1].0, raw[|raw| - 1].1, files, idOk)
        case Err(e) => Err(e)
        case Ok(last) => Ok(before + [last])
  }

  /** Entry `j` is the first that does not validate, with this error. */
  ghost predicate FirstBad(raw: seq<(Id, Json)>, j: nat, e: SeedError,
                           files: map<string, FileState>, idOk: Id -> bool) {
    && j < |raw| && ValidateEntry(raw[j].0, raw[j].1, files, idOk) == Err(e)
    && forall k | 0 <= k < j :: ValidateEntry(raw[k].0, raw[k].1, files, idOk).Ok?
  }

  /** The file is accepted exactly when every entry is, and otherwise stops with the error of
      the first bad one. */
  lemma {:induction false} ValidateAllSpec(raw: seq<(Id, Json)>, files: map<string, FileState>, idOk: Id -> bool)
    ensures ValidateAll(raw, files, idOk).Ok?
            <==> forall i | 0 <= i < |raw| :: ValidateEntry(raw[i].0, raw[i].1, files, idOk).Ok?
    ensures ValidateAll(raw, files, idOk).Err? ==>
      exists j: nat :: FirstBad(raw, j, ValidateAll(raw, files, idOk).error, files, idOk)
    decreases |raw|
  {
    hide ValidateEntry;
    if raw != [] {
      var n := |raw| - 1;
      var front := raw[..n];
      ValidateAllSpec(front, files, idOk);
      assert forall i | 0 <= i < n :: front[i] == raw[i];
      if ValidateAll(front, files, idOk).Err? {
        var e := ValidateAll(front, files, idOk).error;
        var j: nat :| FirstBad(front, j, e, files, idOk);
        assert FirstBad(raw, j, e, files, idOk);
      } else if ValidateAll(raw, files, idOk).Err? {
        assert FirstBad(raw, n, ValidateAll(raw, files, idOk).error, files, idOk);
      }
    }
  }

  /** The entries of an accepted file are those of its bodies, in file order. */
  lemma {:induction false} ValidateAllEach(raw: seq<(Id, Json)>, files: map<string, FileState>, idOk: Id -> bool)
    requires ValidateAll(raw, files, idOk).Ok?
    ensures |ValidateAll(raw, files, idOk).value| == |raw|
    ensures forall i | 0 <= i < |raw| ::
              ValidateEntry(raw[i].0, raw[i].1, files, idOk) == Ok(ValidateAll(raw, files, idOk).value[i])
    decreases |raw|
  {
    hide ValidateEntry;
    if raw != [] {
      ValidateAllEach(raw[..|raw| - 1], files, idOk);
      assert forall i | 0 <= i < |raw| - 1 :: raw[..|raw| - 1][i] == raw[i];
    }
  }

  lemma {:induction false} PrefixErrorDecides(raw: seq<(Id, Json)>, files: map<string, FileState>,
                                              idOk: Id -> bool, n: nat)
    requires n <= |raw| && ValidateAll(raw[..n], files, idOk).Err?
    ensures ValidateAll(raw, files, idOk) == ValidateAll(raw[..n], files, idOk)
    decreases |raw|
  {
    hide ValidateEntry;
    if n == |raw| {
      assert raw[..n] == raw;
    } else {
      assert raw[..|raw| - 1][..n] == raw[..n];
      PrefixErrorDecides(raw[..|raw| - 1], files, idOk, n);
    }
  }

  method ParseAndValidate(raw: seq<(Id, Json)>, files: map<string, FileState>, idOk: Id -> bool)
    returns (r: Result<seq<SeedEntry>, SeedError>)
    ensures r == ValidateAll(raw, files, idOk)
  {
    var entries: seq<SeedEntry> := [];
    for i := 0 to |raw|
      invariant ValidateAll(raw[..i], files, idOk) == Ok(entries)
    {
      assert raw[..i + 1][..i] == raw[..i] && raw[..i + 1][i] == raw[i];
      var entry := ValidateEntry(raw[i].0, raw[i].1, files, idOk);
      if entry.Err? {
        PrefixErrorDecides(raw, files, idOk, i + 1);
        return Err(entry.error);
      }
      entries := entries + [entry.value];
    }
    assert raw[..|raw|] == raw;
    r := Ok(entries);
  }

  // ---------------------------------------------------------------- what an entry says

  /** `j` is a JSON number, or a boolean counting as one, of value `x`. */
  predicate HasValue(j: Json, x: real) {
    (j.JBool? && x == if j.flag then 1.0 else 0.0) || (j.JInt? && x == j.n as real) || (j.JReal? && x == j.x)
  }

  /** A JSON integer from 2^1024 - 2^970 on, in either direction. */
  predicate TooLarge(j: Json) {
    j.JInt? && (j.n >= FLOAT_LIMIT || j.n <= -FLOAT_LIMIT)
  }

  predicate Between(j: Json, ok: real -> bool) {
    !TooLarge(j) && (j.JBool? || j.JInt? || j.JReal?)
    && ok(if j.JBool? then (if j.flag then 1.0 else 0.0) else if j.JInt? then j.n as real else j.x)
  }

  predicate TextAt(fields: map<string, Json>, key: string) {
    key in fields ==> fields[key].JString?
  }

  /** The checks an entry passes before its numbers are looked at. */
  predicate GoodTexts(fields: map<string, Json>) {
    && "ref_audio_path" in fields && fields["ref_audio_path"].JString? && fields["ref_audio_path"].text != ""
    && TextAt(fields, "ref_text") && TextAt(fields, "number_lang")
    && "language" in fields && fields["language"].JString? && Text.Strip(fields["language"].text) != ""
  }

  predicate GoodTemperature(fields: map<string, Json>) {
    "temperature" in fields ==> Between(fields["temperature"], x => 0.0 <= x <= 2.0)
  }

  predicate GoodTopP(fields: map<string, Json>) {
    "top_p" in fields ==> Between(fields["top_p"], x => 0.0 < x <= 1.0)
  }

  predicate GoodCount(fields: map<string, Json>) {
    "max_sentences_per_chunk" in fields ==>
      var j := fields["max_sentences_per_chunk"]; (j.JInt? && j.n >= 1) || (j.JBool? && j.flag)
  }

  predicate NumericTarget(fields: map<string, Json>) {
    "target_db" in fields ==>
      fields["target_db"].JBool? || fields["target_db"].JInt? || fields["target_db"].JReal?
  }

  predicate LargeAt(fields: map<string, Json>, key: string) {
    key in fields && TooLarge(fields[key])
  }

  predicate GoodBody(fields: map<string, Json>, files: map<string, FileState>) {
    && GoodTexts(fields) && GoodTemperature(fields) && GoodTopP(fields) && GoodCount(fields)
    && NumericTarget(fields) && !LargeAt(fields, "target_db")
    && fields["ref_audio_path"].text in files && files[fields["ref_audio_path"].text].Readable?
  }

  /** Entry `e` holds what the body says, with the default for each key it leaves out. */
  predicate Reads(e: SeedEntry, id: Id, fields: map<string, Json>)
    requires GoodTexts(fields)
  {
    && e.id == id && e.audioPath == fields["ref_audio_path"].text && e.language == fields["language"].text
    && e.transcript == (if "ref_text" in fields then fields["ref_text"].text else "")
    && e.numberLang == (if "number_lang" in fields then fields["number_lang"].text else "")
    && HasValue(if "temperature" in fields then fields["temperature"] else JReal(0.8), e.temperature)
    && HasValue(if "top_p" in fields then fields["top_p"] else JReal(0.95), e.topP)
    && HasValue(if "target_db" in fields then fields["target_db"] else JReal(-20.0), e.targetDb)
    && HasValue(if "max_sentences_per_chunk" in fields then fields["max_sentences_per_chunk"] else JInt(2),
                e.maxSentences as real)
  }

  lemma InRangeIff(j: Json, ok: real -> bool)
    ensures InRange(j, ok).Ok? <==> Between(j, ok)
    ensures InRange(j, ok).Ok? ==> HasValue(j, InRange(j, ok).value)
    ensures InRange(j, ok) == Err(Escapes) <==> TooLarge(j)
  {
    hide FLOAT_LIMIT;
  }

  /** Which entries are accepted, in terms of the raw fields, and what an accepted one holds. */
  lemma AcceptedIff(id: Id, body: Json, files: map<string, FileState>, idOk: Id -> bool)
    ensures ValidateEntry(id, body, files, idOk).Ok?
            <==> idOk(id) && body.JObject? && GoodBody(body.fields, files)
    ensures ValidateEntry(id, body, files, idOk).Ok? ==>
      Reads(ValidateEntry(id, body, files, idOk).value, id, body.fields)
  {
    if body.JObject? {
      var f := body.fields;
      InRangeIff(Field(f, "temperature", JReal(0.8)), x => 0.0 <= x <= 2.0);
      InRangeIff(Field(f, "top_p", JReal(0.95)), x => 0.0 < x <= 1.0);
      hide InRange, FLOAT_LIMIT;
    }
  }

  /** Which entries raise instead of being rejected: a number too large for a float where it is
      converted, or an audio path that cannot be looked up, once all earlier checks pass. */
  lemma EscapesIff(id: Id, body: Json, files: map<string, FileState>, idOk: Id -> bool)
    ensures ValidateEntry(id, body, files, idOk) == Err(Escapes)
            <==> && idOk(id) && body.JObject? && GoodTexts(body.fields)
                 && (|| LargeAt(body.fields, "temperature")
                     || (&& GoodTemperature(body.fields)
                         && (|| LargeAt(body.fields, "top_p")
                             || (&& GoodTopP(body.fields) && NumericTarget(body.fields) && GoodCount(body.fields)
                                 && body.fields["ref_audio_path"].text in files
                                 && (|| files[body.fields["ref_audio_path"].text].LookupRaises?
                                     || (files[body.fields["ref_audio_path"].text].Readable?
                                         && LargeAt(body.fields, "target_db")))))))
  {
    if body.JObject? {
      var f := body.fields;
      InRangeIff(Field(f, "temperature", JReal(0.8)), x => 0.0 <= x <= 2.0);
      InRangeIff(Field(f, "top_p", JReal(0.95)), x => 0.0 < x <= 1.0);
      hide InRange, FLOAT_LIMIT;
    }
  }

  /** A voice as a seed-file body with every key. */
  function BodyOf(e: SeedEntry): Json {
    JObject(map[
      "ref_audio_path" := JString(e.audioPath), "ref_text" := JString(e.transcript),
      "language" := JString(e.language), "number_lang" := JString(e.numberLang),
      "temperature" := JReal(e.temperature), "top_p" := JReal(e.topP),
      "target_db" := JReal(e.targetDb), "max_sentences_per_chunk" := JInt(e.maxSentences)])
  }

  /** Round trip: any voice within the limits, written out in full and validated, comes back. */
  lemma WrittenVoiceComesBack(e: SeedEntry, files: map<string, FileState>, idOk: Id -> bool)
    requires idOk(e.id) && e.audioPath != "" && e.audioPath in files && files[e.audioPath].Readable?
    requires Text.Strip(e.language) != "" && 0.0 <= e.temperature <= 2.0 && 0.0 < e.topP <= 1.0 && e.maxSentences >= 1
    ensures ValidateEntry(e.id, BodyOf(e), files, idOk) == Ok(e)
  {
    AcceptedIff(e.id, BodyOf(e), files, idOk);
    hide ValidateEntry, Text.Strip, FLOAT_LIMIT;
    assert GoodBody(BodyOf(e).fields, files);
  }

  /** A body with nothing but a path and a language stands for a voice of defaults. */
  lemma MinimalVoice(id: Id, path: string, language: string, files: map<string, FileState>, idOk: Id -> bool)
    requires idOk(id) && path != "" && path in files && files[path].Readable? && Text.Strip(language) != ""
    ensures var body := JObject(map["ref_audio_path" := JString(path), "language" := JString(language)]);
      ValidateEntry(id, body, files, idOk) == Ok(SeedEntry(id, path, "", language, "", 0.8, 0.95, -20.0, 2))
  {
    var body := JObject(map["ref_audio_path" := JString(path), "language" := JString(language)]);
    AcceptedIff(id, body, files, idOk);
    hide ValidateEntry, Text.Strip, FLOAT_LIMIT;
    assert GoodBody(body.fields, files);
  }

  // ---------------------------------------------------------------- the write pass

  /** Failures while one entry is written, in call order. */
  datatype EntryFaults = EntryFaults(check: Fault, readFails: bool, put: Fault, create: Fault)

  /** Each entry starts with a call that reads the metadata document. */
  function PassAsSeen(f: nat -> EntryFaults, d: Document): nat -> EntryFaults {
    (i: nat) => f(i).(check := Seen(f(i).check, d))
  }

  datatype Outcome = Returned(created: nat) | Raised

  /** A pass that ends in validation. */
  function Aborted(e: SeedError): Outcome {
    if e.Invalid? then Returned(0) else Raised
  }

  function SeedRecord(e: SeedEntry, now: Instant): VoiceRecord {
    VoiceRecord(e.id, e.transcript, e.language, true, e.numberLang, e.targetDb, e.temperature, e.topP,
                e.maxSentences, Seed, now, now)
  }

  function AudioOf(files: map<string, FileState>, path: string): Bytes {
    if path in files && files[path].Readable? then files[path].data else []
  }

  /** The pass from entry `i` on, with `created` voices so far. */
  function IngestFrom(s: Store, entries: seq<SeedEntry>, i: nat, created: nat, files: map<string, FileState>,
                      now: Instant, f: nat -> EntryFaults): (Store, Outcome)
    requires i <= |entries|
    decreases |entries| - i
  {
    if i == |entries| then (s, Returned(created))
    else
      var e := entries[i];
      if f(i).check.LoadFails? then (s, Raised)
      else if e.id in s.meta then IngestFrom(s, entries, i + 1, created, files, now, f)
      else if f(i).readFails then (s, Returned(created))
      else if StopsWrite(f(i).put) then (s, Raised)
      else
        var put := s.(blobs := s.blobs[e.id := AudioOf(files, e.audioPath)]);
        var (meta, error) := RepoStep(put.meta, Create(SeedRecord(e, now)), f(i).create);
        if error.Some? then (put, Raised)
        else IngestFrom(put.(meta := meta), entries, i + 1, created + 1, files, now, f)
  }

  function IngestSpec(s: Store, seed: SeedFile, files: map<string, FileState>, idOk: Id -> bool,
                      now: Instant, f: nat -> EntryFaults): (Store, Outcome) {
    if seed.Undecodable? then (s, Raised)
    else if !seed.Entries? then (s, Returned(0))
    else
      match ValidateAll(seed.entries, files, idOk)
      case Err(e) => (s, Aborted(e))
      case Ok(entries) => IngestFrom(s, entries, 0, 0, files, now, f)
  }

  class VoiceSeedIngestor {
    const repo: FsJsonMetadataRepository
    const blobRepo: FsBlobRepository

    constructor (r: FsJsonMetadataRepository, b: FsBlobRepository)
      ensures repo == r && blobRepo == b
    {
      repo := r;
      blobRepo := b;
    }

    /** The contents of both stores as read at time `now`. */
    ghost function StoresAt(now: Instant): Store
      reads repo, blobRepo
    {
      Store(repo.RecordsAt(now), blobRepo.blobs)
    }

    method IngestOnce(seed: SeedFile, files: map<string, FileState>, idOk: Id -> bool,
                      now: Instant, f: nat -> EntryFaults)
      returns (outcome: Outcome)
      modifies repo, blobRepo
      ensures (StoresAt(now), outcome)
           == IngestSpec(old(StoresAt(now)), seed, files, idOk, now, PassAsSeen(f, old(repo.document)))
    {
      hide ValidateEntry, ValidateAll;
      if seed.Undecodable? {
        return Raised;
      }
      if !seed.Entries? {
        return Returned(0);
      }
      var parsed := ParseAndValidate(seed.entries, files, idOk);
      if parsed.Err? {
        return Aborted(parsed.error);
      }
      var entries := parsed.value;
      var created := 0;
      ghost var g := PassAsSeen(f, repo.document);
      ghost var goal := IngestFrom(StoresAt(now), entries, 0, 0, files, now, g);
      for i := 0 to |entries|
        invariant repo.document.Malformed? <==> old(repo.document).Malformed?
        invariant IngestFrom(StoresAt(now), entries, i, created, files, now, g) == goal
      {
        var e := entries[i];
        var present := repo.Exists(e.id, f(i).check, now);
        if present.Err? {
          return Raised;
        }
        if !present.value {
          if f(i).readFails {
            return Returned(created);
          }
          var put := blobRepo.Put(e.id, AudioOf(files, e.audioPath), f(i).put);
          if put.Some? {
            return Raised;
          }
          var error := repo.CreateRecord(SeedRecord(e, now), f(i).create, now);
          if error.Some? {
            return Raised;
          }
          created := created + 1;
        }
      }
      outcome := Returned(created);
    }
  }

  // ---------------------------------------------------------------- what a pass achieves

  /** One entry that does not validate, wherever it stands, leaves both stores as they were;
      the first such entry decides whether the pass reports nothing created or raises. */
  lemma InvalidEntryChangesNothing(s: Store, raw: seq<(Id, Json)>, i: nat, files: map<string, FileState>,
                                   idOk: Id -> bool, now: Instant, f: nat -> EntryFaults)
    requires i < |raw| && ValidateEntry(raw[i].0, raw[i].1, files, idOk).Err?
    ensures exists j: nat, e ::
              j <= i && FirstBad(raw, j, e, files, idOk)
              && IngestSpec(s, Entries(raw), files, idOk, now, f)
                 == (s, if e.Invalid? then Returned(0) else Raised)
  {
    hide ValidateEntry, ValidateAll;
    ValidateAllSpec(raw, files, idOk);
  }

  /** A seed file that is missing, not JSON or not an object is no error to the pass; one that
      cannot be read or decoded makes it raise. Neither changes anything. */
  lemma UnusableFileChangesNothing(s: Store, seed: SeedFile, files: map<string, FileState>, idOk: Id -> bool,
                                   now: Instant, f: nat -> EntryFaults)
    requires !seed.Entries?
    ensures IngestSpec(s, seed, files, idOk, now, f) == (s, if seed.Undecodable? then Raised else Returned(0))
  { }

  const CLEAN := EntryFaults(NoFault, false, NoFault, NoFault)

  ghost predicate FaultFree(f: nat -> EntryFaults) {
    forall i :: f(i) == CLEAN
  }

  function IdsFrom(entries: seq<SeedEntry>, i: nat): set<Id>
    requires i <= |entries|
  {
    set j | i <= j < |entries| :: entries[j].id
  }

  /** Some entry for `id` supplied both its record and its audio. */
  ghost predicate FromEntry(after: Store, id: Id, entries: seq<SeedEntry>,
                            files: map<string, FileState>, now: Instant) {
    && id in after.meta && id in after.blobs
    && exists j :: 0 <= j < |entries| && entries[j].id == id
         && after.meta[id] == SeedRecord(entries[j], now) && after.blobs[id] == AudioOf(files, entries[j].audioPath)
  }

  /** `after` is `before` plus exactly the ids in `added`, each with a seed record and its audio. */
  ghost predicate AddsExactly(before: Store, after: Store, added: set<Id>, entries: seq<SeedEntry>,
                              files: map<string, FileState>, now: Instant) {
    && after.meta.Keys == before.meta.Keys + added
    && (forall id | id in before.meta :: after.meta[id] == before.meta[id])
    && (forall id | id !in added :: id in after.blobs <==> id in before.blobs)
    && (forall id | id !in added && id in before.blobs :: after.blobs[id] == before.blobs[id])
    && (forall id | id in added :: FromEntry(after, id, entries, files, now))
  }

  /** The store after one clean entry. */
  function WithEntry(s: Store, e: SeedEntry, files: map<string, FileState>, now: Instant): Store {
    Store(s.meta[e.id := SeedRecord(e, now)], s.blobs[e.id := AudioOf(files, e.audioPath)])
  }

  lemma EntryIsFrom(after: Store, entries: seq<SeedEntry>, i: nat, files: map<string, FileState>, now: Instant)
    requires i < |entries| && entries[i].id in after.meta && entries[i].id in after.blobs
    requires after.meta[entries[i].id] == SeedRecord(entries[i], now)
    requires after.blobs[entries[i].id] == AudioOf(files, entries[i].audioPath)
    ensures FromEntry(after, entries[i].id, entries, files, now)
  { }

  lemma OneMoreAdded(s: Store, after: Store, added: set<Id>, entries: seq<SeedEntry>, i: nat,
                     files: map<string, FileState>, now: Instant)
    requires i < |entries| && entries[i].id !in s.meta && entries[i].id !in added
    requires AddsExactly(WithEntry(s, entries[i], files, now), after, added, entries, files, now)
    ensures AddsExactly(s, after, added + {entries[i].id}, entries, files, now)
  {
    hide FromEntry, SeedRecord, AudioOf;
    var id := entries[i].id;
    EntryIsFrom(after, entries, i, files, now);
    assert after.meta.Keys == s.meta.Keys + (added + {id});
  }

  lemma CleanStep(s: Store, entries: seq<SeedEntry>, i: nat, created: nat,
                  files: map<string, FileState>, now: Instant, f: nat -> EntryFaults)
    requires i < |entries| && FaultFree(f)
    ensures IngestFrom(s, entries, i, created, files, now, f)
         == if entries[i].id in s.meta then IngestFrom(s, entries, i + 1, created, files, now, f)
            else IngestFrom(WithEntry(s, entries[i], files, now), entries, i + 1, created + 1, files, now, f)
  {
    assert f(i) == CLEAN;
  }

  /** Ids of the entries from `i` on that the metadata store lacks. */
  function Missing(s: Store, entries: seq<SeedEntry>, i: nat): set<Id>
    requires i <= |entries|
  {
    IdsFrom(entries, i) - s.meta.Keys
  }

  lemma PresentStep(s: Store, entries: seq<SeedEntry>, i: nat)
    requires i < |entries| && entries[i].id in s.meta
    ensures Missing(s, entries, i) == Missing(s, entries, i + 1)
  {
    assert IdsFrom(entries, i) == IdsFrom(entries, i + 1) + {entries[i].id};
  }

  lemma IdsStep(entries: seq<SeedEntry>, i: nat)
    requires i < |entries|
    ensures IdsFrom(entries, i) == IdsFrom(entries, i + 1) + {entries[i].id}
  { }

  lemma OneMoreKey(ids: set<Id>, keys: set<Id>, id: Id)
    requires id !in keys
    ensures (ids + {id}) - keys == (ids - (keys + {id})) + {id}
    ensures |(ids + {id}) - keys| == |ids - (keys + {id})| + 1
  {
    assert (ids + {id}) - keys == (ids - (keys + {id})) + {id};
  }

  lemma MissingStep(s: Store, s1: Store, entries: seq<SeedEntry>, i: nat)
    requires i < |entries| && entries[i].id !in s.meta && s1.meta.Keys == s.meta.Keys + {entries[i].id}
    ensures entries[i].id !in Missing(s1, entries, i + 1)
    ensures Missing(s, entries, i) == Missing(s1, entries, i + 1) + {entries[i].id}
    ensures |Missing(s, entries, i)| == |Missing(s1, entries, i + 1)| + 1
  {
    IdsStep(entries, i);
    hide IdsFrom;
    OneMoreKey(IdsFrom(entries, i + 1), s.meta.Keys, entries[i].id);
  }

  lemma WithEntryKeys(s: Store, e: SeedEntry, files: map<string, FileState>, now: Instant)
    ensures WithEntry(s, e, files, now).meta.Keys == s.meta.Keys + {e.id}
  { }

  /** From entry `i` on the pass adds exactly the missing ids and counts them. */
  ghost predicate PassAdds(s: Store, entries: seq<SeedEntry>, i: nat, created: nat,
                           files: map<string, FileState>, now: Instant, f: nat -> EntryFaults)
    requires i <= |entries|
  {
    var (after, outcome) := IngestFrom(s, entries, i, created, files, now, f);
    && outcome == Returned(created + |Missing(s, entries, i)|)
    && AddsExactly(s, after, Missing(s, entries, i), entries, files, now)
  }

  lemma AddsNothing(s: Store, entries: seq<SeedEntry>, files: map<string, FileState>, now: Instant)
    ensures AddsExactly(s, s, {}, entries, files, now)
  { }

  lemma NothingLeft(s: Store, entries: seq<SeedEntry>, created: nat,
                    files: map<string, FileState>, now: Instant, f: nat -> EntryFaults)
    ensures PassAdds(s, entries, |entries|, created, files, now, f)
  {
    assert Missing(s, entries, |entries|) == {};
    AddsNothing(s, entries, files, now);
    hide AddsExactly, Missing;
  }

  lemma PresentAdds(s: Store, entries: seq<SeedEntry>, i: nat, created: nat,
                    files: map<string, FileState>, now: Instant, f: nat -> EntryFaults)
    requires i < |entries| && FaultFree(f) && entries[i].id in s.meta
    ensures PassAdds(s, entries, i + 1, created, files, now, f) ==> PassAdds(s, entries, i, created, files, now, f)
  {
    hide IngestFrom, AddsExactly, Missing, FaultFree;
    CleanStep(s, entries, i, created, files, now, f);
    PresentStep(s, entries, i);
  }

  lemma AbsentAdds(s: Store, entries: seq<SeedEntry>, i: nat, created: nat,
                   files: map<string, FileState>, now: Instant, f: nat -> EntryFaults)
    requires i < |entries| && FaultFree(f) && entries[i].id !in s.meta
    ensures PassAdds(WithEntry(s, entries[i], files, now), entries, i + 1, created + 1, files, now, f)
            ==> PassAdds(s, entries, i, created, files, now, f)
  {
    hide IngestFrom, AddsExactly, Missing, FaultFree, WithEntry;
    var s1 := WithEntry(s, entries[i], files, now);
    CleanStep(s, entries, i, created, files, now, f);
    WithEntryKeys(s, entries[i], files, now);
    MissingStep(s, s1, entries, i);
    if PassAdds(s1, entries, i + 1, created + 1, files, now, f) {
      OneMoreAdded(s, IngestFrom(s1, entries, i + 1, created + 1, files, now, f).0,
                   Missing(s1, entries, i + 1), entries, i, files, now);
    }
  }

  lemma {:induction false} CleanPassAddsMissing(s: Store, entries: seq<SeedEntry>, i: nat, created: nat,
                                                files: map<string, FileState>, now: Instant, f: nat -> EntryFaults)
    requires i <= |entries| && FaultFree(f)
    ensures PassAdds(s, entries, i, created, files, now, f)
    decreases |entries| - i
  {
    hide *;
    if i == |entries| {
      NothingLeft(s, entries, created, files, now, f);
    } else if entries[i].id in s.meta {
      CleanPassAddsMissing(s, entries, i + 1, created, files, now, f);
      PresentAdds(s, entries, i, created, files, now, f);
    } else {
      CleanPassAddsMissing(WithEntry(s, entries[i], files, now), entries, i + 1, created + 1, files, now, f);
      AbsentAdds(s, entries, i, created, files, now, f);
    }
  }

  /** A fault-free pass over a valid file adds exactly the missing ids, returns how many, and
      touches no existing record and no blob of an existing id. */
  lemma IngestAddsExactlyMissing(s: Store, raw: seq<(Id, Json)>, entries: seq<SeedEntry>,
                                 files: map<string, FileState>, idOk: Id -> bool, now: Instant, f: nat -> EntryFaults)
    requires ValidateAll(raw, files, idOk) == Ok(entries) && FaultFree(f)
    ensures var (after, outcome) := IngestSpec(s, Entries(raw), files, idOk, now, f);
      && outcome == Returned(|Missing(s, entries, 0)|)
      && AddsExactly(s, after, Missing(s, entries, 0), entries, files, now)
  {
    hide AddsExactly, IngestFrom, FaultFree, ValidateAll;
    CleanPassAddsMissing(s, entries, 0, 0, files, now, f);
  }

  /** The record and the audio of a voice, as the body `fields` of the seed file gives them. */
  ghost predicate StoredAs(after: Store, id: Id, fields: map<string, Json>,
                           files: map<string, FileState>, now: Instant) {
    && GoodBody(fields, files) && id in after.meta && id in after.blobs
    && after.blobs[id] == files[fields["ref_audio_path"].text].data
    && var r := after.meta[id];
      && Reads(SeedEntry(r.id, fields["ref_audio_path"].text, r.transcript, r.language, r.numberLang,
                         r.temperature, r.topP, r.targetDb, r.maxSentences), id, fields)
      && r.consent && r.source.Seed? && r.createdAt == now && r.updatedAt == now
  }

  /** Every voice a fault-free pass adds is stored as some entry of the file for its id says. */
  lemma AddsWhatTheFileSays(s: Store, raw: seq<(Id, Json)>, files: map<string, FileState>, idOk: Id -> bool,
                            now: Instant, f: nat -> EntryFaults, id: Id)
    requires ValidateAll(raw, files, idOk).Ok? && FaultFree(f)
    requires id in IngestSpec(s, Entries(raw), files, idOk, now, f).0.meta && id !in s.meta
    ensures var after := IngestSpec(s, Entries(raw), files, idOk, now, f).0;
      exists j :: 0 <= j < |raw| && raw[j].0 == id && raw[j].1.JObject?
                  && StoredAs(after, id, raw[j].1.fields, files, now)
  {
    hide ValidateEntry, ValidateAll, IngestFrom, FaultFree, GoodBody, Reads;
    var entries := ValidateAll(raw, files, idOk).value;
    var after := IngestSpec(s, Entries(raw), files, idOk, now, f).0;
    IngestAddsExactlyMissing(s, raw, entries, files, idOk, now, f);
    ValidateAllEach(raw, files, idOk);
    assert FromEntry(after, id, entries, files, now);
    var j :| 0 <= j < |entries| && entries[j].id == id
      && after.meta[id] == SeedRecord(entries[j], now) && after.blobs[id] == AudioOf(files, entries[j].audioPath);
    AcceptedIff(raw[j].0, raw[j].1, files, idOk);
    StoredFrom(after, entries[j], raw[j].0, raw[j].1.fields, files, now);
  }

  lemma StoredFrom(after: Store, e: SeedEntry, id: Id, fields: map<string, Json>,
                   files: map<string, FileState>, now: Instant)
    requires GoodBody(fields, files) && Reads(e, id, fields)
    requires e.id in after.meta && after.meta[e.id] == SeedRecord(e, now)
    requires e.id in after.blobs && after.blobs[e.id] == AudioOf(files, e.audioPath)
    ensures e.id == id && StoredAs(after, id, fields, files, now)
  { }

  // ---------------------------------------------------------------- a pass that stops

  /** The entries before the first fault are ingested as if the file ended there. */
  lemma {:induction false} PrefixPass(s: Store, entries: seq<SeedEntry>, k: nat, i: nat, created: nat,
                                      files: map<string, FileState>, now: Instant,
                                      f: nat -> EntryFaults, g: nat -> EntryFaults)
    requires i <= k <= |entries| && FaultFree(g) && forall j | i <= j < k :: f(j) == CLEAN
    ensures var (before, outcome) := IngestFrom(s, entries[..k], i, created, files, now, g);
      outcome.Returned?
      && IngestFrom(s, entries, i, created, files, now, f)
         == IngestFrom(before, entries, k, outcome.created, files, now, f)
    decreases k - i
  {
    if i < k {
      assert f(i) == CLEAN && g(i) == CLEAN && entries[..k][i] == entries[i];
      var e := entries[i];
      if e.id in s.meta {
        PrefixPass(s, entries, k, i + 1, created, files, now, f, g);
      } else {
        PrefixPass(WithEntry(s, e, files, now), entries, k, i + 1, created + 1, files, now, f, g);
      }
    }
  }

  /** How a pass ends at entry `k` when something fails there, nothing having failed before:
      an id already stored only needs the check; otherwise a file that cannot be read ends the
      pass with what was created so far, and anything else raises. */
  function StopsAt(before: Store, e: SeedEntry, f: EntryFaults, created: nat): Option<Outcome> {
    if f.check.LoadFails? then Some(Raised)
    else if e.id in before.meta then None
    else if f.readFails then Some(Returned(created))
    else if StopsWrite(f.put) || !f.create.NoFault? then Some(Raised)
    else None
  }

  /** A pass that stops keeps exactly the voices of the entries before, and leaves no record of
      the one it stopped at; its audio is there exactly when only the record's write failed. */
  lemma StoppedPass(s: Store, entries: seq<SeedEntry>, k: nat, files: map<string, FileState>, now: Instant,
                    f: nat -> EntryFaults, g: nat -> EntryFaults)
    requires k < |entries| && FaultFree(g) && forall j | 0 <= j < k :: f(j) == CLEAN
    requires StopsAt(IngestFrom(s, entries[..k], 0, 0, files, now, g).0, entries[k], f(k),
                     |Missing(s, entries[..k], 0)|).Some?
    ensures var (after, outcome) := IngestFrom(s, entries, 0, 0, files, now, f);
      var before := IngestFrom(s, entries[..k], 0, 0, files, now, g).0;
      && AddsExactly(s, before, Missing(s, entries[..k], 0), entries[..k], files, now)
      && Some(outcome) == StopsAt(before, entries[k], f(k), |Missing(s, entries[..k], 0)|)
      && after.meta == before.meta
      && after.blobs == (if f(k).check.LoadFails? || f(k).readFails || StopsWrite(f(k).put) then before.blobs
                         else before.blobs[entries[k].id := AudioOf(files, entries[k].audioPath)])
  {
    hide AddsExactly, Missing, FaultFree;
    PrefixPass(s, entries, k, 0, 0, files, now, f, g);
    CleanPassAddsMissing(s, entries[..k], 0, 0, files, now, g);
  }

  lemma {:induction false} NothingMissing(s: Store, entries: seq<SeedEntry>, i: nat, created: nat,
                                          files: map<string, FileState>, now: Instant, f: nat -> EntryFaults)
    requires i <= |entries| && FaultFree(f) && IdsFrom(entries, i) <= s.meta.Keys
    ensures IngestFrom(s, entries, i, created, files, now, f) == (s, Returned(created))
    decreases |entries| - i
  {
    if i < |entries| {
      assert f(i) == CLEAN;
      assert entries[i].id in IdsFrom(entries, i);
      assert IdsFrom(entries, i + 1) <= IdsFrom(entries, i);
      NothingMissing(s, entries, i + 1, created, files, now, f);
    }
  }

  /** Ingesting twice equals ingesting once, and the second pass reports nothing created,
      unless the file is one that makes both raise. */
  lemma IngestIsIdempotent(s: Store, seed: SeedFile, files: map<string, FileState>, idOk: Id -> bool,
                           now: Instant, later: Instant, f: nat -> EntryFaults, g: nat -> EntryFaults)
    requires FaultFree(f) && FaultFree(g)
    ensures var (once, outcome) := IngestSpec(s, seed, files, idOk, now, f);
      IngestSpec(once, seed, files, idOk, later, g) == (once, if outcome.Raised? then Raised else Returned(0))
  {
    if seed.Entries? && ValidateAll(seed.entries, files, idOk).Ok? {
      var entries := ValidateAll(seed.entries, files, idOk).value;
      IngestAddsExactlyMissing(s, seed.entries, entries, files, idOk, now, f);
      var once := IngestSpec(s, seed, files, idOk, now, f).0;
      NothingMissing(once, entries, 0, 0, files, later, g);
    }
  }
}
