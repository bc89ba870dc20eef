/** The voice endpoints `create_voice`, `update_voice`, `delete_voice` and `get_voice_audio`
    over the two repositories, with a failure possible at every repository call. */
module VoiceHandlers {
  import opened VoiceRepos
  import opened Wrappers

  /** The contents of both stores. */
  datatype Store = Store(meta: map<Id, VoiceRecord>, blobs: map<Id, Bytes>)

  datatype Payload = Payload(
    transcript: string, language: string, consent: bool, numberLang: string,
    targetDb: real, temperature: real, topP: real, maxSentences: int)

  /** The audio part of a request after the content-type, size and magic-byte checks. */
  datatype AudioPart = NoAudio | BadAudio | Audio(data: Bytes)

  datatype Response =
    | Saved(record: VoiceRecord)
    | Gone
    | Sound(data: Bytes, id: Id, source: Source)
    | ConsentRequired
    | RefAudioInvalid
    | IdExists
    | VoiceNotFound
    | BlobMissing
    | ServerError

  function NewRecord(id: Id, p: Payload, now: Instant): VoiceRecord {
    VoiceRecord(id, p.transcript, p.language, true, p.numberLang, p.targetDb, p.temperature, p.topP,
                p.maxSentences, Crud, now, now)
  }

  function UpdatedRecord(existing: VoiceRecord, p: Payload, now: Instant): VoiceRecord {
    VoiceRecord(existing.id, p.transcript, p.language, true, p.numberLang, p.targetDb, p.temperature, p.topP,
                p.maxSentences, existing.source, existing.createdAt, now)
  }

  datatype Faults = Faults(first: Fault, second: Fault, third: Fault)

  const NO_FAULTS := Faults(NoFault, NoFault, NoFault)

  /** Every handler's first repository call reads the metadata document. */
  function AsSeen(f: Faults, d: Document): Faults {
    f.(first := Seen(f.first, d))
  }

  // ---------------------------------------------------------------- specification

  /** Faults in call order: metadata create, blob put, rollback delete. */
  function CreateSpec(s: Store, id: Id, p: Payload, audio: AudioPart, now: Instant, f: Faults): (Store, Response) {
    if !p.consent then (s, ConsentRequired)
    else if !audio.Audio? then (s, RefAudioInvalid)
    else
      var record := NewRecord(id, p, now);
      var (created, error) := RepoStep(s.meta, Create(record), f.first);
      if error == Some(AlreadyExists) then (s, IdExists)
      else if error.Some? then (s, ServerError)
      else if StopsWrite(f.second) then
        (s.(meta := RepoStep(created, Delete(id), f.third).0), ServerError)
      else (Store(created, s.blobs[id := audio.data]), Saved(record))
  }

  /** Faults in call order: metadata get, blob put, metadata update. */
  function UpdateSpec(s: Store, id: Id, p: Payload, audio: AudioPart, now: Instant, f: Faults): (Store, Response) {
    if !p.consent then (s, ConsentRequired)
    else if f.first.LoadFails? then (s, ServerError)
    else if id !in s.meta then (s, VoiceNotFound)
    else if audio.BadAudio? then (s, RefAudioInvalid)
    else if audio.Audio? && StopsWrite(f.second) then (s, ServerError)
    else
      var s1 := if audio.Audio? then s.(blobs := s.blobs[id := audio.data]) else s;
      var record := UpdatedRecord(s.meta[id], p, now);
      var (updated, error) := RepoStep(s.meta, Update(record), f.third);
      if error.Some? then (s1, ServerError) else (s1.(meta := updated), Saved(record))
  }

  /** Faults in call order: metadata delete, blob exists, blob delete. */
  function DeleteSpec(s: Store, id: Id, f: Faults): (Store, Response) {
    var (left, error) := RepoStep(s.meta, Delete(id), f.first);
    if error == Some(NotFound) then (s, VoiceNotFound)
    else if error.Some? then (s, ServerError)
    else if f.second.LoadFails? then (s.(meta := left), ServerError)
    else if id !in s.blobs then (s.(meta := left), Gone)
    else if StopsWrite(f.third) then (s.(meta := left), ServerError)
    else (Store(left, s.blobs - {id}), Gone)
  }

  /** Faults in call order: metadata get, blob get. */
  function AudioSpec(s: Store, id: Id, f: Faults): Response {
    if f.first.LoadFails? then ServerError
    else if id !in s.meta then VoiceNotFound
    else if id !in s.blobs then BlobMissing
    else if f.second.LoadFails? then ServerError
    else Sound(s.blobs[id], s.meta[id].id, s.meta[id].source)
  }

  // ---------------------------------------------------------------- the handlers

  class VoicesRouter {
    const repo: FsJsonMetadataRepository
    const blobRepo: FsBlobRepository

    constructor (r: FsJsonMetadataRepository, b: FsBlobRepository)
      ensures repo == r && blobRepo == b
    {
      repo := r;
      blobRepo := b;
    }

    /** The contents of both stores as read at time `now`. */
    ghost function StoresAt(now: Instant): Store
      reads repo, blobRepo
    {
      Store(repo.RecordsAt(now), blobRepo.blobs)
    }

    method CreateVoice(id: Id, p: Payload, audio: AudioPart, now: Instant, f: Faults) returns (response: Response)
      modifies repo, blobRepo
      ensures (StoresAt(now), response)
           == CreateSpec(old(StoresAt(now)), id, p, audio, now, AsSeen(f, old(repo.document)))
    {
      if !p.consent {
        return ConsentRequired;
      }
      if !audio.Audio? {
        return RefAudioInvalid;
      }
      var record := NewRecord(id, p, now);
      var error := repo.CreateRecord(record, f.first, now);
      if error == Some(AlreadyExists) {
        return IdExists;
      }
      if error.Some? {
        return ServerError;
      }
      var put := blobRepo.Put(id, audio.data, f.second);
      if put.Some? {
        var rollback := repo.DeleteRecord(id, f.third, now);
        return ServerError;
      }
      response := Saved(record);
    }

    method UpdateVoice(id: Id, p: Payload, audio: AudioPart, now: Instant, f: Faults) returns (response: Response)
      modifies repo, blobRepo
      ensures (StoresAt(now), response)
           == UpdateSpec(old(StoresAt(now)), id, p, audio, now, AsSeen(f, old(repo.document)))
    {
      if !p.consent {
        return ConsentRequired;
      }
      var existing := repo.Get(id, f.first, now);
      if existing == Err(NotFound) {
        return VoiceNotFound;
      }
      if existing.Err? {
        return ServerError;
      }
      if audio.BadAudio? {
        return RefAudioInvalid;
      }
      if audio.Audio? {
        var put := blobRepo.Put(id, audio.data, f.second);
        if put.Some? {
          return ServerError;
        }
      }
      var record := UpdatedRecord(existing.value, p, now);
      var error := repo.UpdateRecord(record, f.third, now);
      response := if error.Some? then ServerError else Saved(record);
    }

    method DeleteVoice(id: Id, f: Faults, now: Instant) returns (response: Response)
      modifies repo, blobRepo
      ensures (StoresAt(now), response) == DeleteSpec(old(StoresAt(now)), id, AsSeen(f, old(repo.document)))
    {
      var error := repo.DeleteRecord(id, f.first, now);
      if error == Some(NotFound) {
        return VoiceNotFound;
      }
      if error.Some? {
        return ServerError;
      }
      var present := blobRepo.Exists(id, f.second);
      if present.Err? {
        return ServerError;
      }
      if present.value {
        var removed := blobRepo.Remove(id, f.third);
        if removed.Some? {
          return ServerError;
        }
      }
      response := Gone;
    }

    method GetVoiceAudio(id: Id, f: Faults, now: Instant) returns (response: Response)
      ensures response == AudioSpec(StoresAt(now), id, AsSeen(f, repo.document))
    {
      var record := repo.Get(id, f.first, now);
      if record == Err(NotFound) {
        return VoiceNotFound;
      }
      if record.Err? {
        return ServerError;
      }
      var data := blobRepo.Get(id, f.second);
      if data == Err(NotFound) {
        return BlobMissing;
      }
      if data.Err? {
        return ServerError;
      }
      response := Sound(data.value, record.value.id, record.value.source);
    }
  }
}
