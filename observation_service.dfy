/** Submission and moderation of observations: creation with the
    five-minute cooldown, validation and rejection, and the per-species
    listing. */
module ObservationService {
  import opened Common
  import opened Ordering
  import opened ObservationStore

  /** The cooldown between two submissions of one species by one author. */
  const CooldownMillis: int := 5 * 60 * 1000

  /** Some observation by `authorId` of `speciesId` was created at or after
      `now` minus five minutes. */
  predicate SubmittedRecently(observations: map<Id, Observation>, authorId: Id, speciesId: Id, now: Time)
  {
    exists k :: k in observations
      && observations[k].authorId == authorId
      && observations[k].speciesId == speciesId
      && observations[k].createdAt >= now - CooldownMillis
  }

  /** Records a new observation at status PENDING after checking that the
      species exists and that the author's cooldown for it has elapsed. */
  method CreateObservation(db: Database, authorId: Id, speciesId: Id, description: string, now: Time)
    returns (r: Result<Observation, Error>)
    requires db.Valid()
    modifies db
    ensures db.Valid()
    ensures db.species == old(db.species) && db.history == old(db.history)
    ensures speciesId !in old(db.species) ==> r == Err(SpeciesNotFound)
    ensures speciesId in old(db.species) && SubmittedRecently(old(db.observations), authorId, speciesId, now)
      ==> r == Err(SubmittedTooRecently)
    ensures r.Ok? <==> speciesId in old(db.species) && !SubmittedRecently(old(db.observations), authorId, speciesId, now)
    ensures r.Err? ==> db.observations == old(db.observations)
    ensures r.Ok? ==>
      && r.value.id !in old(db.observations)
      && db.observations == old(db.observations)[r.value.id := r.value]
      && r.value == Observation(r.value.id, authorId, speciesId, description, Pending,
                                None, None, None, None, None, now)
  {
    if speciesId !in db.species {
      return Err(SpeciesNotFound);
    }
    if SubmittedRecently(db.observations, authorId, speciesId, now) {
      return Err(SubmittedTooRecently);
    }
    var id := db.nextObservationId;
    var o := Observation(id, authorId, speciesId, description, Pending, None, None, None, None, None, now);
    db.observations := db.observations[id := o];
    db.nextObservationId := id + 1;
    r := Ok(o);
  }

  /** The guard shared by validation and rejection: the observation exists,
      is still pending, and its author is not the moderator. */
  method Moderate(db: Database, observationId: Id, validatorId: Id, now: Time, outcome: Status, ownError: Error)
    returns (r: Result<Observation, Error>)
    requires db.Valid()
    requires outcome == Validated || outcome == Rejected
    modifies db
    ensures db.Valid()
    ensures db.species == old(db.species) && db.history == old(db.history)
    ensures db.nextObservationId == old(db.nextObservationId)
    ensures observationId !in old(db.observations) ==> r == Err(ObservationNotFound)
    ensures (observationId in old(db.observations) && old(db.observations)[observationId].status != Pending)
      ==> r == Err(AlreadyProcessed)
    ensures (observationId in old(db.observations) && old(db.observations)[observationId].status == Pending
             && old(db.observations)[observationId].authorId == validatorId)
      ==> r == Err(ownError)
    ensures r.Ok? <==> (observationId in old(db.observations)
                        && old(db.observations)[observationId].status == Pending
                        && old(db.observations)[observationId].authorId != validatorId)
    ensures r.Err? ==> db.observations == old(db.observations)
    ensures r.Ok? ==>
      && r.value == old(db.observations)[observationId].(status := outcome,
           validatedBy := Some(validatorId), validatedAt := Some(now))
      && db.observations == old(db.observations)[observationId := r.value]
  {
    if observationId !in db.observations {
      return Err(ObservationNotFound);
    }
    var o := db.observations[observationId];
    if o.status != Pending {
      return Err(AlreadyProcessed);
    }
    if o.authorId == validatorId {
      return Err(ownError);
    }
    var updated := o.(status := outcome, validatedBy := Some(validatorId), validatedAt := Some(now));
    UpdateRow(db.species, db.observations, db.history, db.nextSpeciesId, db.nextObservationId, updated);
    db.observations := db.observations[observationId := updated];
    r := Ok(updated);
  }

  /** Marks a pending observation VALIDATED on behalf of a validator other
      than its author. */
  method ValidateObservation(db: Database, observationId: Id, validatorId: Id, now: Time)
    returns (r: Result<Observation, Error>)
    requires db.Valid()
    modifies db
    ensures db.Valid()
    ensures db.species == old(db.species) && db.history == old(db.history)
    ensures observationId !in old(db.observations) ==> r == Err(ObservationNotFound)
    ensures (observationId in old(db.observations) && old(db.observations)[observationId].status != Pending)
      ==> r == Err(AlreadyProcessed)
    ensures (observationId in old(db.observations) && old(db.observations)[observationId].status == Pending
             && old(db.observations)[observationId].authorId == validatorId)
      ==> r == Err(OwnObservationValidation)
    ensures r.Ok? <==> (observationId in old(db.observations)
                        && old(db.observations)[observationId].status == Pending
                        && old(db.observations)[observationId].authorId != validatorId)
    ensures r.Err? ==> db.observations == old(db.observations)
    ensures r.Ok? ==>
      && r.value == old(db.observations)[observationId].(status := Validated,
           validatedBy := Some(validatorId), validatedAt := Some(now))
      && db.observations == old(db.observations)[observationId := r.value]
  {
    r := Moderate(db, observationId, validatorId, now, Validated, OwnObservationValidation);
  }

  /** Marks a pending observation REJECTED; like validation, it records who
      moderated it and when. */
  method RejectObservation(db: Database, observationId: Id, validatorId: Id, now: Time)
    returns (r: Result<Observation, Error>)
    requires db.Valid()
    modifies db
    ensures db.Valid()
    ensures db.species == old(db.species) && db.history == old(db.history)
    ensures observationId !in old(db.observations) ==> r == Err(ObservationNotFound)
    ensures (observationId in old(db.observations) && old(db.observations)[observationId].status != Pending)
      ==> r == Err(AlreadyProcessed)
    ensures (observationId in old(db.observations) && old(db.observations)[observationId].status == Pending
             && old(db.observations)[observationId].authorId == validatorId)
      ==> r == Err(OwnObservationRejection)
    ensures r.Ok? <==> (observationId in old(db.observations)
                        && old(db.observations)[observationId].status == Pending
                        && old(db.observations)[observationId].authorId != validatorId)
    ensures r.Err? ==> db.observations == old(db.observations)
    ensures r.Ok? ==>
      && r.value == old(db.observations)[observationId].(status := Rejected,
           validatedBy := Some(validatorId), validatedAt := Some(now))
      && db.observations == old(db.observations)[observationId := r.value]
  {
    r := Moderate(db, observationId, validatorId, now, Rejected, OwnObservationRejection);
  }

  /** `getObservationsBySpecies`: the observations of one species, newest
      first. */
  function ObservationsBySpecies(db: Database, speciesId: Id): (r: seq<Observation>)
    reads db
    requires db.Valid()
    ensures forall o :: o in r <==> o in db.observations.Values && o.speciesId == speciesId
    ensures Distinct(r)
    ensures SortedDesc(r, CreatedAtKey)
  {
    ObservationsWhere(db, (o: Observation) => o.speciesId == speciesId)
  }
}
