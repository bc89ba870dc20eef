/** What each voice endpoint answers, in terms of the request, the stores and the failures, and
    what an answer says about the stores afterwards. */
module VoiceResponses {
  import opened VoiceRepos
  import opened VoiceHandlers

  /** A record with the payload's fields. */
  predicate Carries(r: VoiceRecord, id: Id, p: Payload, source: Source, created: Instant, updated: Instant) {
    && r.id == id && r.transcript == p.transcript && r.language == p.language && r.consent
    && r.numberLang == p.numberLang && r.targetDb == p.targetDb && r.temperature == p.temperature
    && r.topP == p.topP && r.maxSentences == p.maxSentences
    && r.source == source && r.createdAt == created && r.updatedAt == updated
  }

  /** The answers of a create. It reports success exactly when nothing stands in the way of
      both writes; the record it returns is then the one stored, new, with the fields sent, and
      the audio sent is stored with it. */
  lemma CreateResponds(s: Store, id: Id, p: Payload, audio: AudioPart, now: Instant, f: Faults)
    ensures var (after, response) := CreateSpec(s, id, p, audio, now, f);
      && (response.Saved?
          <==> p.consent && audio.Audio? && id !in s.meta && f.first.NoFault? && !StopsWrite(f.second))
      && (response.Saved? ==>
            && after.meta == s.meta[id := response.record] && after.blobs == s.blobs[id := audio.data]
            && Carries(response.record, id, p, Crud, now, now))
      && (response.ConsentRequired? <==> !p.consent)
      && (response.RefAudioInvalid? <==> p.consent && !audio.Audio?)
      && (response.IdExists? <==> p.consent && audio.Audio? && !f.first.LoadFails? && id in s.meta)
      && (response.ServerError?
          <==> p.consent && audio.Audio?
               && (f.first.LoadFails? || (id !in s.meta && (StopsWrite(f.first) || StopsWrite(f.second)))))
      && (response.ConsentRequired? || response.RefAudioInvalid? || response.IdExists? ==> after == s)
  { }

  /** The answers of an update. A successful one keeps what the record had of id, source and
      creation time, and replaces the audio exactly when some was sent. */
  lemma UpdateResponds(s: Store, id: Id, p: Payload, audio: AudioPart, now: Instant, f: Faults)
    requires id in s.meta ==> s.meta[id].id == id
    ensures var (after, response) := UpdateSpec(s, id, p, audio, now, f);
      && (response.Saved?
          <==> p.consent && !f.first.LoadFails? && id in s.meta && !audio.BadAudio?
               && (audio.Audio? ==> !StopsWrite(f.second)) && f.third.NoFault?)
      && (response.Saved? ==>
            && after.meta == s.meta[id := response.record]
            && after.blobs == (if audio.Audio? then s.blobs[id := audio.data] else s.blobs)
            && Carries(response.record, id, p, s.meta[id].source, s.meta[id].createdAt, now))
      && (response.ConsentRequired? <==> !p.consent)
      && (response.VoiceNotFound? <==> p.consent && !f.first.LoadFails? && id !in s.meta)
      && (response.RefAudioInvalid? <==> p.consent && !f.first.LoadFails? && id in s.meta && audio.BadAudio?)
      && (response.ServerError?
          <==> p.consent
               && (|| f.first.LoadFails?
                   || (id in s.meta && !audio.BadAudio?
                       && ((audio.Audio? && StopsWrite(f.second)) || !f.third.NoFault?))))
      && (response.ConsentRequired? || response.VoiceNotFound? || response.RefAudioInvalid? ==> after == s)
  { }

  /** The answers of a delete: gone from both stores, not there, or a failure. */
  lemma DeleteResponds(s: Store, id: Id, f: Faults)
    ensures var (after, response) := DeleteSpec(s, id, f);
      && (response.Gone?
          <==> id in s.meta && f.first.NoFault? && !f.second.LoadFails? && (id in s.blobs ==> !StopsWrite(f.third)))
      && (response.Gone? ==> after == Store(s.meta - {id}, s.blobs - {id}))
      && (response.VoiceNotFound? <==> !f.first.LoadFails? && id !in s.meta)
      && (response.VoiceNotFound? ==> after == s)
      && (response.Gone? || response.VoiceNotFound? || response.ServerError?)
  {
    assert id !in s.blobs ==> s.blobs - {id} == s.blobs;
  }

  /** The answers of the audio endpoint. It sends what the blob store has, under the id and the
      source of the record, and tells a missing voice from a voice without audio. */
  lemma AudioResponds(s: Store, id: Id, f: Faults)
    ensures var response := AudioSpec(s, id, f);
      && (response.Sound?
          <==> !f.first.LoadFails? && id in s.meta && id in s.blobs && !f.second.LoadFails?)
      && (response.Sound? ==>
            response.data == s.blobs[id] && response.id == s.meta[id].id && response.source == s.meta[id].source)
      && (response.VoiceNotFound? <==> !f.first.LoadFails? && id !in s.meta)
      && (response.BlobMissing? <==> !f.first.LoadFails? && id in s.meta && id !in s.blobs)
      && (response.Sound? || response.VoiceNotFound? || response.BlobMissing? || response.ServerError?)
  { }

  /** Write then read: what a successful create or update sent is what the audio endpoint sends
      next, and after a successful delete it answers "not found". */
  lemma ReadsBackWhatWasWritten(s: Store, id: Id, p: Payload, audio: AudioPart, now: Instant, f: Faults)
    requires id in s.meta ==> s.meta[id].id == id
    ensures var (after, response) := CreateSpec(s, id, p, audio, now, f);
      response.Saved? ==> AudioSpec(after, id, NO_FAULTS) == Sound(audio.data, id, Crud)
    ensures var (after, response) := UpdateSpec(s, id, p, audio, now, f);
      response.Saved? && audio.Audio? ==> AudioSpec(after, id, NO_FAULTS) == Sound(audio.data, id, s.meta[id].source)
    ensures var (after, response) := DeleteSpec(s, id, f);
      response.Gone? ==> AudioSpec(after, id, NO_FAULTS) == VoiceNotFound
  {
    CreateResponds(s, id, p, audio, now, f);
    UpdateResponds(s, id, p, audio, now, f);
    DeleteResponds(s, id, f);
    hide CreateSpec, UpdateSpec, DeleteSpec;
  }
}
