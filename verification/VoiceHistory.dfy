/** Whole histories of the voice store: requests and seed passes run one after another, with
    a failure possible at any repository call. */
module VoiceHistory {
  import opened Runs
  import opened VoiceRepos
  import opened VoiceHandlers
  import SI = SeedIngestion

  datatype Op =
    | Post(id: Id, p: Payload, audio: AudioPart, now: Instant, f: Faults)
    | Put(id: Id, p: Payload, audio: AudioPart, now: Instant, f: Faults)
    | Drop(id: Id, f: Faults)
    | Seeding(entries: seq<SI.SeedEntry>, files: map<string, SI.FileState>, now: Instant,
              seedFaults: nat -> SI.EntryFaults)

  function Perform(s: Store, op: Op): Store {
    match op
    case Post(id, p, audio, now, f) => CreateSpec(s, id, p, audio, now, f).0
    case Put(id, p, audio, now, f) => UpdateSpec(s, id, p, audio, now, f).0
    case Drop(id, f) => DeleteSpec(s, id, f).0
    case Seeding(entries, files, now, f) => SI.IngestFrom(s, entries, 0, 0, files, now, f).0
  }

  function History(s: Store, ops: seq<Op>): Store {
    if ops == [] then s else Perform(History(s, ops[..|ops| - 1]), ops[|ops| - 1])
  }

  const EMPTY_STORE := Store(map[], map[])

  lemma HistoryStep(ops: seq<Op>, op: Op)
    ensures History(EMPTY_STORE, ops + [op]) == Perform(History(EMPTY_STORE, ops), op)
  {
    assert (ops + [op])[..|ops|] == ops;
  }

  // ---------------------------------------------------------------- records without audio

  /** Records are filed under their own id, with consent. */
  ghost predicate WellFiled(s: Store) {
    forall id | id in s.meta :: s.meta[id].id == id && s.meta[id].consent
  }

  function Blobless(s: Store): set<Id> {
    set id | id in s.meta && id !in s.blobs
  }

  ghost predicate Consistent(s: Store) {
    WellFiled(s) && Blobless(s) == {}
  }

  lemma EmptyIsConsistent()
    ensures Consistent(History(EMPTY_STORE, []))
  { }

  /** A create that stored its record, lost its blob write and then lost its rollback too. */
  predicate LosesRollback(s: Store, op: Op) {
    op.Post? && op.p.consent && op.audio.Audio? && op.id !in s.meta && op.f.first.NoFault?
    && StopsWrite(op.f.second) && !op.f.third.NoFault?
  }

  /** Such a create, with no orphan blob of its id to stand in. */
  predicate LosesBlob(s: Store, op: Op) {
    LosesRollback(s, op) && op.id !in s.blobs
  }

  /** An update that wrote its audio. */
  predicate ReplacesAudio(s: Store, op: Op) {
    op.Put? && op.p.consent && op.audio.Audio? && op.id in s.meta && !op.f.first.LoadFails? && !StopsWrite(op.f.second)
  }

  /** A delete that removed its record. */
  predicate RemovesRecord(s: Store, op: Op) {
    op.Drop? && op.id in s.meta && op.f.first.NoFault?
  }

  /** The ids whose last lost create no later update or delete has repaired. */
  function LostIds(s: Store, ops: seq<Op>): set<Id> {
    if ops == [] then Blobless(s)
    else
      var front, op := ops[..|ops| - 1], ops[|ops| - 1];
      var before := History(s, front);
      if LosesBlob(before, op) then LostIds(s, front) + {op.id}
      else if ReplacesAudio(before, op) || RemovesRecord(before, op) then LostIds(s, front) - {op.id}
      else LostIds(s, front)
  }

  /** What the seed entries for `id` read as audio. */
  function EntryAudio(entries: seq<SI.SeedEntry>, files: map<string, SI.FileState>, id: Id): set<Bytes> {
    set j | 0 <= j < |entries| && entries[j].id == id :: SI.AudioOf(files, entries[j].audioPath)
  }

  /** A seed pass, wherever it stops, leaves the voices it found alone, and every record it
      adds is well filed and has the audio of an entry for it. */
  ghost predicate OnlyAdds(s: Store, after: Store, entries: seq<SI.SeedEntry>, files: map<string, SI.FileState>) {
    && (forall id | id in s.meta :: id in after.meta && after.meta[id] == s.meta[id])
    && (forall id | id in s.meta :: id in after.blobs <==> id in s.blobs)
    && (forall id | id in s.meta && id in s.blobs :: after.blobs[id] == s.blobs[id])
    && (forall id | id in after.meta && id !in s.meta ::
          after.meta[id].id == id && after.meta[id].consent
          && id in after.blobs && after.blobs[id] in EntryAudio(entries, files, id))
  }

  lemma OneMoreOnlyAdds(s: Store, after: Store, entries: seq<SI.SeedEntry>, i: nat,
                        files: map<string, SI.FileState>, now: Instant)
    requires i < |entries| && entries[i].id !in s.meta
    requires OnlyAdds(SI.WithEntry(s, entries[i], files, now), after, entries, files)
    ensures OnlyAdds(s, after, entries, files)
  {
    assert SI.AudioOf(files, entries[i].audioPath) in EntryAudio(entries, files, entries[i].id);
  }

  lemma NothingAdded(s: Store, entries: seq<SI.SeedEntry>, files: map<string, SI.FileState>)
    ensures OnlyAdds(s, s, entries, files)
  { }

  lemma OrphanAdded(s: Store, id: Id, data: Bytes, entries: seq<SI.SeedEntry>, files: map<string, SI.FileState>)
    requires id !in s.meta
    ensures OnlyAdds(s, s.(blobs := s.blobs[id := data]), entries, files)
  { }

  /** What a pass does next: stop, skip a known id, or add a voice. */
  lemma IngestNext(s: Store, entries: seq<SI.SeedEntry>, i: nat, created: nat,
                   files: map<string, SI.FileState>, now: Instant, f: nat -> SI.EntryFaults)
    requires i < |entries|
    ensures var after, e := SI.IngestFrom(s, entries, i, created, files, now, f).0, entries[i];
      || after == s
      || (e.id in s.meta && after == SI.IngestFrom(s, entries, i + 1, created, files, now, f).0)
      || (e.id !in s.meta
          && (after == s.(blobs := s.blobs[e.id := SI.AudioOf(files, e.audioPath)])
              || after == SI.IngestFrom(SI.WithEntry(s, e, files, now), entries, i + 1, created + 1, files, now, f).0))
  { }

  lemma {:induction false} IngestOnlyAdds(s: Store, entries: seq<SI.SeedEntry>, i: nat, created: nat,
                                          files: map<string, SI.FileState>, now: Instant, f: nat -> SI.EntryFaults)
    requires i <= |entries|
    ensures OnlyAdds(s, SI.IngestFrom(s, entries, i, created, files, now, f).0, entries, files)
    decreases |entries| - i
  {
    if i == |entries| {
    } else {
      hide *;
      var e := entries[i];
      IngestNext(s, entries, i, created, files, now, f);
      NothingAdded(s, entries, files);
      if e.id in s.meta {
        IngestOnlyAdds(s, entries, i + 1, created, files, now, f);
      } else {
        var added := SI.WithEntry(s, e, files, now);
        OrphanAdded(s, e.id, SI.AudioOf(files, e.audioPath), entries, files);
        IngestOnlyAdds(added, entries, i + 1, created + 1, files, now, f);
        OneMoreOnlyAdds(s, SI.IngestFrom(added, entries, i + 1, created + 1, files, now, f).0, entries, i, files, now);
      }
    }
  }

  /** What one operation, whatever fails in it, leaves of the set of records without audio. */
  function BloblessAfter(s: Store, op: Op): set<Id> {
    if LosesBlob(s, op) then Blobless(s) + {op.id}
    else if ReplacesAudio(s, op) || RemovesRecord(s, op) then Blobless(s) - {op.id}
    else Blobless(s)
  }

  /** What a create leaves: the stores as they were, the record alone, or the record and its
      audio. One that does not succeed changes something exactly when it loses its rollback. */
  lemma PostLeaves(s: Store, id: Id, p: Payload, audio: AudioPart, now: Instant, f: Faults)
    ensures var (after, response) := CreateSpec(s, id, p, audio, now, f);
      var created, op := s.meta[id := NewRecord(id, p, now)], Post(id, p, audio, now, f);
      && (if LosesRollback(s, op) then after == s.(meta := created)
          else after == s || (id !in s.meta && p.consent && audio.Audio?
                              && after == Store(created, s.blobs[id := audio.data])))
      && (!response.Saved? ==> (after == s <==> !LosesRollback(s, op)))
  {
    if id !in s.meta {
      assert s.meta[id := NewRecord(id, p, now)] - {id} == s.meta;
      assert id in s.meta[id := NewRecord(id, p, now)];
    }
  }

  /** What an update leaves: new audio exactly when it got as far as writing it, and a new
      record exactly when it succeeds. */
  lemma PutLeaves(s: Store, id: Id, p: Payload, audio: AudioPart, now: Instant, f: Faults)
    ensures var (after, response) := UpdateSpec(s, id, p, audio, now, f);
      && after.blobs == (if ReplacesAudio(s, Put(id, p, audio, now, f)) then s.blobs[id := audio.data] else s.blobs)
      && (response.Saved? ==> id in s.meta && p.consent)
      && after.meta == (if response.Saved? then s.meta[s.meta[id].id := UpdatedRecord(s.meta[id], p, now)] else s.meta)
  { }

  /** What a delete leaves: nothing of the voice when it succeeds, and otherwise everything, or
      the audio alone once the record is gone. */
  lemma DropLeaves(s: Store, id: Id, f: Faults)
    ensures var (after, response) := DeleteSpec(s, id, f);
      && (response.Gone? ==> RemovesRecord(s, Drop(id, f)))
      && after == if response.Gone? then Store(s.meta - {id}, s.blobs - {id})
                  else if RemovesRecord(s, Drop(id, f)) then s.(meta := s.meta - {id})
                  else s
  {
    assert id !in s.blobs ==> s.blobs - {id} == s.blobs;
  }

  lemma PostBlobless(s: Store, id: Id, p: Payload, audio: AudioPart, now: Instant, f: Faults)
    requires WellFiled(s)
    ensures var op := Post(id, p, audio, now, f);
      WellFiled(Perform(s, op)) && Blobless(Perform(s, op)) == BloblessAfter(s, op)
  {
    PostLeaves(s, id, p, audio, now, f);
    hide CreateSpec;
  }

  lemma PutBlobless(s: Store, id: Id, p: Payload, audio: AudioPart, now: Instant, f: Faults)
    requires WellFiled(s)
    ensures var op := Put(id, p, audio, now, f);
      WellFiled(Perform(s, op)) && Blobless(Perform(s, op)) == BloblessAfter(s, op)
  {
    PutLeaves(s, id, p, audio, now, f);
    hide UpdateSpec;
  }

  lemma DropBlobless(s: Store, id: Id, f: Faults)
    requires WellFiled(s)
    ensures WellFiled(Perform(s, Drop(id, f))) && Blobless(Perform(s, Drop(id, f))) == BloblessAfter(s, Drop(id, f))
  {
    DropLeaves(s, id, f);
    hide DeleteSpec;
  }

  lemma SeedingBlobless(s: Store, op: Op)
    requires WellFiled(s) && op.Seeding?
    ensures WellFiled(Perform(s, op)) && Blobless(Perform(s, op)) == BloblessAfter(s, op)
  {
    IngestOnlyAdds(s, op.entries, 0, 0, op.files, op.now, op.seedFaults);
  }

  lemma PerformBlobless(s: Store, op: Op)
    requires WellFiled(s)
    ensures WellFiled(Perform(s, op)) && Blobless(Perform(s, op)) == BloblessAfter(s, op)
  {
    hide *;
    match op
    case Post(id, p, audio, now, f) => PostBlobless(s, id, p, audio, now, f);
    case Put(id, p, audio, now, f) => PutBlobless(s, id, p, audio, now, f);
    case Drop(id, f) => DropBlobless(s, id, f);
    case Seeding(_, _, _, _) => SeedingBlobless(s, op);
  }

  /** Two-store consistency: after any history with failures anywhere every stored record
      carries consent, and the records without audio are exactly those of creates that lost
      both their blob write and their rollback and that nothing has repaired since. */
  lemma {:induction false} TwoStoreConsistency(ops: seq<Op>)
    ensures WellFiled(History(EMPTY_STORE, ops))
    ensures Blobless(History(EMPTY_STORE, ops)) == LostIds(EMPTY_STORE, ops)
  {
    if ops != [] {
      TwoStoreConsistency(ops[..|ops| - 1]);
      PerformBlobless(History(EMPTY_STORE, ops[..|ops| - 1]), ops[|ops| - 1]);
    }
  }

  /** For one create on any store: the record is without audio afterwards exactly when it was
      before, or both writes fail and no orphan blob stands in. */
  lemma BlobMissingIffRollbackLost(s: Store, id: Id, p: Payload, audio: AudioPart, now: Instant, f: Faults)
    ensures var op := Post(id, p, audio, now, f);
      id in Blobless(Perform(s, op)) <==> id in Blobless(s) || LosesBlob(s, op)
  {
    PostLeaves(s, id, p, audio, now, f);
    hide CreateSpec;
  }

  /** Consistency survives an operation exactly when it does not lose its blob. */
  lemma ConsistencySurvivesIff(s: Store, op: Op)
    requires Consistent(s)
    ensures Consistent(Perform(s, op)) <==> !LosesBlob(s, op)
  {
    PerformBlobless(s, op);
  }

  /** The law and its exact condition over histories: every record has audio at every
      operation boundary exactly when no operation loses its blob. */
  lemma ConsistentThroughoutIff(ops: seq<Op>)
    ensures (forall i | 0 <= i <= |ops| :: Consistent(History(EMPTY_STORE, ops[..i])))
            <==> forall i | 0 <= i < |ops| :: !LosesBlob(History(EMPTY_STORE, ops[..i]), ops[i])
  {
    hide Consistent, LosesBlob, Perform;
    var good := (before: seq<Op>) => Consistent(History(EMPTY_STORE, before));
    var breaks := (before: seq<Op>, op: Op) => LosesBlob(History(EMPTY_STORE, before), op);
    forall before: seq<Op>, op: Op | good(before)
      ensures good(before + [op]) <==> !breaks(before, op)
    {
      HistoryStep(before, op);
      ConsistencySurvivesIff(History(EMPTY_STORE, before), op);
    }
    EmptyIsConsistent();
    HoldsThroughoutIff(good, breaks, ops);
  }

  // ---------------------------------------------------------------- whose audio a record has

  /** The audio sent for each stored voice since its record was created, one operation on. */
  function SentAfter(s: Store, sent: map<Id, set<Bytes>>, op: Op): map<Id, set<Bytes>> {
    match op
    case Post(id, _, audio, _, _) =>
      if id !in s.meta && id in Perform(s, op).meta && audio.Audio? then sent[id := {audio.data}] else sent
    case Put(id, _, audio, _, _) =>
      if ReplacesAudio(s, op) && id in sent then sent[id := sent[id] + {audio.data}] else sent
    case Drop(id, _) =>
      if RemovesRecord(s, op) then sent - {id} else sent
    case Seeding(entries, files, _, _) =>
      sent + map id | id in Perform(s, op).meta.Keys - s.meta.Keys :: EntryAudio(entries, files, id)
  }

  function Sent(ops: seq<Op>): map<Id, set<Bytes>> {
    if ops == [] then map[]
    else SentAfter(History(EMPTY_STORE, ops[..|ops| - 1]), Sent(ops[..|ops| - 1]), ops[|ops| - 1])
  }

  /** What a record has as audio was sent for that record. */
  ghost predicate OwnAudio(s: Store, sent: map<Id, set<Bytes>>) {
    sent.Keys == s.meta.Keys && forall id | id in s.meta && id in s.blobs :: s.blobs[id] in sent[id]
  }

  /** A create that lost its rollback where an orphan blob of its id holds other audio. */
  predicate AdoptsOrphan(s: Store, op: Op) {
    LosesRollback(s, op) && op.id in s.blobs && s.blobs[op.id] != op.audio.data
  }

  lemma PostKeepsOwnAudioIff(s: Store, sent: map<Id, set<Bytes>>, id: Id, p: Payload, audio: AudioPart,
                             now: Instant, f: Faults)
    requires OwnAudio(s, sent)
    ensures var op := Post(id, p, audio, now, f);
      OwnAudio(Perform(s, op), SentAfter(s, sent, op)) <==> !AdoptsOrphan(s, op)
  {
    PostLeaves(s, id, p, audio, now, f);
    hide CreateSpec;
  }

  lemma PutKeepsOwnAudio(s: Store, sent: map<Id, set<Bytes>>, id: Id, p: Payload, audio: AudioPart,
                         now: Instant, f: Faults)
    requires WellFiled(s) && OwnAudio(s, sent)
    ensures var op := Put(id, p, audio, now, f); OwnAudio(Perform(s, op), SentAfter(s, sent, op))
  {
    PutLeaves(s, id, p, audio, now, f);
    hide UpdateSpec;
  }

  lemma DropKeepsOwnAudio(s: Store, sent: map<Id, set<Bytes>>, id: Id, f: Faults)
    requires OwnAudio(s, sent)
    ensures OwnAudio(Perform(s, Drop(id, f)), SentAfter(s, sent, Drop(id, f)))
  {
    DropLeaves(s, id, f);
    hide DeleteSpec;
  }

  lemma OnlyAddsKeepsOwnAudio(s: Store, sent: map<Id, set<Bytes>>, after: Store,
                              entries: seq<SI.SeedEntry>, files: map<string, SI.FileState>)
    requires OwnAudio(s, sent) && OnlyAdds(s, after, entries, files)
    ensures OwnAudio(after, sent + map id | id in after.meta.Keys - s.meta.Keys :: EntryAudio(entries, files, id))
  {
    hide EntryAudio;
    var more := sent + map id | id in after.meta.Keys - s.meta.Keys :: EntryAudio(entries, files, id);
    assert more.Keys == after.meta.Keys;
  }

  lemma SeedingKeepsOwnAudio(s: Store, sent: map<Id, set<Bytes>>, op: Op)
    requires OwnAudio(s, sent) && op.Seeding?
    ensures OwnAudio(Perform(s, op), SentAfter(s, sent, op))
  {
    hide SI.IngestFrom, OnlyAdds, OwnAudio, EntryAudio;
    IngestOnlyAdds(s, op.entries, 0, 0, op.files, op.now, op.seedFaults);
    OnlyAddsKeepsOwnAudio(s, sent, Perform(s, op), op.entries, op.files);
  }

  /** Every record keeps its own audio through an operation exactly when the operation does
      not adopt an orphan. */
  lemma OwnAudioSurvivesIff(s: Store, sent: map<Id, set<Bytes>>, op: Op)
    requires WellFiled(s) && OwnAudio(s, sent)
    ensures OwnAudio(Perform(s, op), SentAfter(s, sent, op)) <==> !AdoptsOrphan(s, op)
  {
    hide OwnAudio, WellFiled, Perform, SentAfter;
    match op
    case Post(id, p, audio, now, f) => PostKeepsOwnAudioIff(s, sent, id, p, audio, now, f);
    case Put(id, p, audio, now, f) => PutKeepsOwnAudio(s, sent, id, p, audio, now, f);
    case Drop(id, f) => DropKeepsOwnAudio(s, sent, id, f);
    case Seeding(_, _, _, _) => SeedingKeepsOwnAudio(s, sent, op);
  }

  lemma SentStep(ops: seq<Op>, op: Op)
    ensures Sent(ops + [op]) == SentAfter(History(EMPTY_STORE, ops), Sent(ops), op)
  {
    assert (ops + [op])[..|ops|] == ops;
  }

  lemma NothingSent()
    ensures OwnAudio(History(EMPTY_STORE, []), Sent([]))
  { }

  /** Provenance over histories: at every operation boundary the audio of every record is
      audio that was sent for that record, exactly when no operation adopts an orphan. */
  lemma OwnAudioThroughoutIff(ops: seq<Op>)
    ensures (forall i | 0 <= i <= |ops| :: OwnAudio(History(EMPTY_STORE, ops[..i]), Sent(ops[..i])))
            <==> forall i | 0 <= i < |ops| :: !AdoptsOrphan(History(EMPTY_STORE, ops[..i]), ops[i])
  {
    hide OwnAudio, AdoptsOrphan, Perform, SentAfter;
    var good := (before: seq<Op>) => OwnAudio(History(EMPTY_STORE, before), Sent(before));
    var breaks := (before: seq<Op>, op: Op) => AdoptsOrphan(History(EMPTY_STORE, before), op);
    forall before: seq<Op>, op: Op | good(before)
      ensures good(before + [op]) <==> !breaks(before, op)
    {
      HistoryStep(before, op);
      SentStep(before, op);
      TwoStoreConsistency(before);
      OwnAudioSurvivesIff(History(EMPTY_STORE, before), Sent(before), op);
    }
    NothingSent();
    HoldsThroughoutIff(good, breaks, ops);
  }

  /** The law does fail: a delete that loses its unlink and a create that loses its rollback
      make the endpoint answer for the new record with the audio of the deleted one. */
  lemma OrphanIsServed(id: Id, p: Payload, deleted: Bytes, sent: Bytes, now: Instant)
    requires p.consent
    ensures var ops := [Post(id, p, Audio(deleted), now, NO_FAULTS),
                        Drop(id, Faults(NoFault, NoFault, WriteFails)),
                        Post(id, p, Audio(sent), now, Faults(NoFault, WriteFails, LoadFails))];
      AudioSpec(History(EMPTY_STORE, ops), id, NO_FAULTS) == VoiceHandlers.Sound(deleted, id, Crud)
  {
    var op0 := Post(id, p, Audio(deleted), now, NO_FAULTS);
    var op1 := Drop(id, Faults(NoFault, NoFault, WriteFails));
    var op2 := Post(id, p, Audio(sent), now, Faults(NoFault, WriteFails, LoadFails));
    assert [] + [op0] == [op0] && [op0] + [op1] == [op0, op1] && [op0, op1] + [op2] == [op0, op1, op2];
    HistoryStep([], op0);
    HistoryStep([op0], op1);
    HistoryStep([op0, op1], op2);
    assert id !in History(EMPTY_STORE, [op0, op1]).meta;
  }

  // ---------------------------------------------------------------- refinement without faults

  datatype Voice = Voice(record: VoiceRecord, audio: Bytes)

  /** The single map the two stores stand for; blobs without a record do not show. */
  ghost predicate Represents(s: Store, v: map<Id, Voice>) {
    && v.Keys == s.meta.Keys
    && forall id | id in v :: id in s.blobs && v[id] == Voice(s.meta[id], s.blobs[id])
  }

  ghost predicate FaultFreeOp(op: Op) {
    if op.Seeding? then SI.FaultFree(op.seedFaults) else op.f == NO_FAULTS
  }

  function IngestVoices(v: map<Id, Voice>, entries: seq<SI.SeedEntry>, i: nat,
                        files: map<string, SI.FileState>, now: Instant): map<Id, Voice>
    requires i <= |entries|
    decreases |entries| - i
  {
    if i == |entries| then v
    else
      var e := entries[i];
      IngestVoices(if e.id in v then v else v[e.id := Voice(SI.SeedRecord(e, now), SI.AudioOf(files, e.audioPath))],
                   entries, i + 1, files, now)
  }

  /** Each operation on the one map, with its response. */
  function PerformOne(v: map<Id, Voice>, op: Op): map<Id, Voice> {
    match op
    case Post(id, p, audio, now, _) =>
      if p.consent && audio.Audio? && id !in v then v[id := Voice(NewRecord(id, p, now), audio.data)] else v
    case Put(id, p, audio, now, _) =>
      if p.consent && id in v && !audio.BadAudio? then
        v[id := Voice(UpdatedRecord(v[id].record, p, now), if audio.Audio? then audio.data else v[id].audio)]
      else v
    case Drop(id, _) => v - {id}
    case Seeding(entries, files, now, _) => IngestVoices(v, entries, 0, files, now)
  }

  lemma {:induction false} IngestRefines(s: Store, v: map<Id, Voice>, entries: seq<SI.SeedEntry>, i: nat, created: nat,
                                         files: map<string, SI.FileState>, now: Instant, f: nat -> SI.EntryFaults)
    requires i <= |entries| && Represents(s, v) && SI.FaultFree(f)
    ensures Represents(SI.IngestFrom(s, entries, i, created, files, now, f).0, IngestVoices(v, entries, i, files, now))
    decreases |entries| - i
  {
    if i < |entries| {
      var e := entries[i];
      SI.CleanStep(s, entries, i, created, files, now, f);
      if e.id in s.meta {
        IngestRefines(s, v, entries, i + 1, created, files, now, f);
      } else {
        var s1 := SI.WithEntry(s, e, files, now);
        var v1 := v[e.id := Voice(SI.SeedRecord(e, now), SI.AudioOf(files, e.audioPath))];
        assert Represents(s1, v1);
        IngestRefines(s1, v1, entries, i + 1, created + 1, files, now, f);
      }
    }
  }

  lemma PostRefines(s: Store, v: map<Id, Voice>, id: Id, p: Payload, audio: AudioPart, now: Instant)
    requires Represents(s, v)
    ensures var op := Post(id, p, audio, now, NO_FAULTS); Represents(Perform(s, op), PerformOne(v, op))
  { }

  lemma PutRefines(s: Store, v: map<Id, Voice>, id: Id, p: Payload, audio: AudioPart, now: Instant)
    requires Represents(s, v) && WellFiled(s)
    ensures var op := Put(id, p, audio, now, NO_FAULTS); Represents(Perform(s, op), PerformOne(v, op))
  {
    if id in s.meta {
      assert s.meta[id].id == id;
    }
  }

  lemma DropRefines(s: Store, v: map<Id, Voice>, id: Id)
    requires Represents(s, v)
    ensures var op := Drop(id, NO_FAULTS); Represents(Perform(s, op), PerformOne(v, op))
  { }

  lemma PerformRefines(s: Store, v: map<Id, Voice>, op: Op)
    requires Represents(s, v) && WellFiled(s) && FaultFreeOp(op)
    ensures Represents(Perform(s, op), PerformOne(v, op))
  {
    hide Represents, WellFiled, CreateSpec, UpdateSpec, DeleteSpec, SI.FaultFree;
    match op
    case Post(id, p, audio, now, f) => PostRefines(s, v, id, p, audio, now);
    case Put(id, p, audio, now, f) => PutRefines(s, v, id, p, audio, now);
    case Drop(id, f) => DropRefines(s, v, id);
    case Seeding(entries, files, now, f) => IngestRefines(s, v, entries, 0, 0, files, now, f);
  }

  function HistoryOne(v: map<Id, Voice>, ops: seq<Op>): map<Id, Voice> {
    if ops == [] then v else PerformOne(HistoryOne(v, ops[..|ops| - 1]), ops[|ops| - 1])
  }

  lemma {:induction false} NothingLost(ops: seq<Op>)
    requires forall i | 0 <= i < |ops| :: FaultFreeOp(ops[i])
    ensures LostIds(EMPTY_STORE, ops) == {}
  {
    if ops != [] {
      NothingLost(ops[..|ops| - 1]);
      assert FaultFreeOp(ops[|ops| - 1]);
    }
  }

  /** Fault-free histories refine one map from id to record and audio, and a reader sees
      exactly that map: the audio endpoint answers with the voice, or "not found". */
  lemma {:induction false} FaultFreeRefinesOneMap(ops: seq<Op>, id: Id)
    requires forall i | 0 <= i < |ops| :: FaultFreeOp(ops[i])
    ensures var s, v := History(EMPTY_STORE, ops), HistoryOne(map[], ops);
      && Represents(s, v)
      && AudioSpec(s, id, NO_FAULTS)
         == if id in v then VoiceHandlers.Sound(v[id].audio, id, v[id].record.source) else VoiceNotFound
  {
    if ops != [] {
      FaultFreeRefinesOneMap(ops[..|ops| - 1], id);
      TwoStoreConsistency(ops[..|ops| - 1]);
      NothingLost(ops[..|ops| - 1]);
      PerformRefines(History(EMPTY_STORE, ops[..|ops| - 1]), HistoryOne(map[], ops[..|ops| - 1]), ops[|ops| - 1]);
    }
    TwoStoreConsistency(ops);
  }
}
