/** Administration of observations: soft deletion and restoration, each
    recorded by one history row, and the read-only reports built on the
    history. */
module AdminService {
  import opened Common
  import opened Ordering
  import opened ObservationStore

  const DefaultDeletionReason: string := "Aucune raison fournie"
  const DefaultDeletionComment: string := "Suppression par un administrateur"
  const RestorationComment: string := "Observation restaurée par un administrateur"

  /** `reason || fallback`: an absent or empty reason gives the fallback. */
  function ReasonOr(reason: Option<string>, fallback: string): string
  {
    if Present(reason) then reason.value else fallback
  }

  /** The row after a soft deletion. */
  function SoftDeleted(o: Observation, adminId: Id, reason: Option<string>, now: Time): Observation
  {
    o.(status := Deleted, deletedBy := Some(adminId), deletedAt := Some(now),
       deletedReason := Some(ReasonOr(reason, DefaultDeletionReason)))
  }

  /** The row after a restoration: pending again, deletion fields cleared. */
  function Restored(o: Observation): Observation
  {
    o.(status := Pending, deletedBy := None, deletedAt := None, deletedReason := None)
  }

  /** Restoring a soft-deleted observation gives back the observation it
      was, at status PENDING: every other field, the moderation fields
      included, is as before the deletion. */
  lemma RestoreUndoesSoftDelete(o: Observation, adminId: Id, reason: Option<string>, now: Time)
    requires WellFormed(o) && o.status != Deleted
    ensures WellFormed(SoftDeleted(o, adminId, reason, now))
    ensures Restored(SoftDeleted(o, adminId, reason, now)) == o.(status := Pending)
    ensures o.status == Pending ==> Restored(SoftDeleted(o, adminId, reason, now)) == o
  {
  }

  /** Marks an observation DELETED and appends one DELETED history row that
      records the status it had. */
  method SoftDeleteObservation(db: Database, observationId: Id, adminId: Id, adminRole: Role,
                               reason: Option<string>, now: Time)
    returns (r: Result<Observation, Error>)
    requires db.Valid()
    modifies db
    ensures db.Valid()
    ensures db.species == old(db.species) && db.nextObservationId == old(db.nextObservationId)
    ensures observationId !in old(db.observations) ==> r == Err(ObservationNotFound)
    ensures (observationId in old(db.observations) && old(db.observations)[observationId].status == Deleted)
      ==> r == Err(AlreadyDeleted)
    ensures r.Ok? <==> (observationId in old(db.observations)
                        && old(db.observations)[observationId].status != Deleted)
    ensures r.Err? ==> db.observations == old(db.observations) && db.history == old(db.history)
    ensures r.Ok? ==>
      && r.value == SoftDeleted(old(db.observations)[observationId], adminId, reason, now)
      && r.value.deletedReason == Some(ReasonOr(reason, DefaultDeletionReason))
      && db.observations == old(db.observations)[observationId := r.value]
      && db.history == old(db.history) + [HistoryEntry(|old(db.history)|, observationId, DeletedAction,
           adminId, adminRole, old(db.observations)[observationId].status, Deleted,
           ReasonOr(reason, DefaultDeletionComment), now)]
  {
    if observationId !in db.observations {
      return Err(ObservationNotFound);
    }
    var o := db.observations[observationId];
    if o.status == Deleted {
      return Err(AlreadyDeleted);
    }
    var updated := SoftDeleted(o, adminId, reason, now);
    var entry := HistoryEntry(|db.history|, observationId, DeletedAction, adminId, adminRole,
                              o.status, Deleted, ReasonOr(reason, DefaultDeletionComment), now);
    LastEntryAppend(db.history, entry, observationId);
    UpdateAndLog(db.species, db.observations, db.history, db.nextSpeciesId, db.nextObservationId, updated, entry);
    db.observations := db.observations[observationId := updated];
    db.history := db.history + [entry];
    r := Ok(updated);
  }

  /** Brings a deleted observation back to PENDING, clears its deletion
      fields and appends one RESTORED history row. */
  method RestoreObservation(db: Database, observationId: Id, adminId: Id, adminRole: Role, now: Time)
    returns (r: Result<Observation, Error>)
    requires db.Valid()
    modifies db
    ensures db.Valid()
    ensures db.species == old(db.species) && db.nextObservationId == old(db.nextObservationId)
    ensures observationId !in old(db.observations) ==> r == Err(ObservationNotFound)
    ensures (observationId in old(db.observations) && old(db.observations)[observationId].status != Deleted)
      ==> r == Err(NotDeleted)
    ensures r.Ok? <==> (observationId in old(db.observations)
                        && old(db.observations)[observationId].status == Deleted)
    ensures r.Err? ==> db.observations == old(db.observations) && db.history == old(db.history)
    ensures r.Ok? ==>
      && r.value == Restored(old(db.observations)[observationId])
      && db.observations == old(db.observations)[observationId := r.value]
      && db.history == old(db.history) + [HistoryEntry(|old(db.history)|, observationId, RestoredAction,
           adminId, adminRole, Deleted, Pending, RestorationComment, now)]
  {
    if observationId !in db.observations {
      return Err(ObservationNotFound);
    }
    var o := db.observations[observationId];
    if o.status != Deleted {
      return Err(NotDeleted);
    }
    var updated := Restored(o);
    var entry := HistoryEntry(|db.history|, observationId, RestoredAction, adminId, adminRole,
                              Deleted, Pending, RestorationComment, now);
    UpdateAndLog(db.species, db.observations, db.history, db.nextSpeciesId, db.nextObservationId, updated, entry);
    db.observations := db.observations[observationId := updated];
    db.history := db.history + [entry];
    r := Ok(updated);
  }

  /** A deletion followed by a restoration: a non-deleted observation comes
      back at PENDING with no deletion fields, and the history gains exactly
      the two rows X -> DELETED and DELETED -> PENDING, in that order. */
  method SoftDeleteThenRestore(db: Database, observationId: Id, adminId: Id, adminRole: Role,
                               reason: Option<string>, deletedAt: Time, restoredAt: Time)
    returns (deleted: Result<Observation, Error>, restored: Result<Observation, Error>)
    requires db.Valid()
    modifies db
    ensures db.Valid()
    ensures deleted.Ok? <==> (observationId in old(db.observations)
                              && old(db.observations)[observationId].status != Deleted)
    ensures deleted.Ok? ==>
      var before := old(db.observations)[observationId];
      var n := |old(db.history)|;
      && restored == Ok(before.(status := Pending))
      && restored.value.deletedBy.None? && restored.value.deletedAt.None? && restored.value.deletedReason.None?
      && db.observations == old(db.observations)[observationId := restored.value]
      && db.history == old(db.history) + [
           HistoryEntry(n, observationId, DeletedAction, adminId, adminRole, before.status, Deleted,
                        ReasonOr(reason, DefaultDeletionComment), deletedAt),
           HistoryEntry(n + 1, observationId, RestoredAction, adminId, adminRole, Deleted, Pending,
                        RestorationComment, restoredAt)]
  {
    ghost var history0, observations0 := db.history, db.observations;
    deleted := SoftDeleteObservation(db, observationId, adminId, adminRole, reason, deletedAt);
    ghost var history1, observations1 := db.history, db.observations;
    restored := RestoreObservation(db, observationId, adminId, adminRole, restoredAt);
    if deleted.Ok? {
      RestoreUndoesSoftDelete(observations0[observationId], adminId, reason, deletedAt);
      assert db.history == history0 + [history1[|history0|], db.history[|history1|]];
      assert observations1[observationId := restored.value] == observations0[observationId := restored.value];
    }
  }

  /** An observation together with its history, newest row first. */
  datatype AuditedObservation = AuditedObservation(observation: Observation, history: seq<HistoryEntry>)

  /** `getObservationHistory`: fails for an unknown observation; otherwise
      the observation and every history row about it, each once, newest
      first. */
  function GetObservationHistory(db: Database, observationId: Id): (r: Result<AuditedObservation, Error>)
    reads db
    requires db.Valid()
    ensures observationId !in db.observations <==> r == Err(ObservationNotFound)
    ensures r.Ok? ==>
      && r.value.observation == db.observations[observationId]
      && (forall e :: e in r.value.history <==> e in db.history && e.observationId == observationId)
      && Distinct(r.value.history)
      && SortedDesc(r.value.history, TimestampKey)
  {
    if observationId !in db.observations then Err(ObservationNotFound)
    else
      var history := HistoryOf(db.history, observationId);
      assert Distinct(db.history) by {
        forall i, j | 0 <= i < j < |db.history| ensures db.history[i] != db.history[j] {
          assert db.history[i].id == i && db.history[j].id == j;
        }
      }
      DistinctSubMultiset(db.history, history);
      Ok(AuditedObservation(db.observations[observationId], history))
  }

  datatype StatusCounts = StatusCounts(total: nat, pending: nat, validated: nat, rejected: nat, deleted: nat)

  /** `observations.filter(o => o.status === status).length`. */
  function CountStatus(observations: seq<Observation>, status: Status): nat
  {
    if observations == [] then 0
    else (if observations[0].status == status then 1 else 0) + CountStatus(observations[1..], status)
  }

  /** `CountStatus` counts what the source's filter keeps. */
  lemma {:induction false} CountStatusIsFilterLength(observations: seq<Observation>, status: Status)
    ensures CountStatus(observations, status) == |Filter(observations, (o: Observation) => o.status == status)|
  {
    if observations != [] {
      CountStatusIsFilterLength(observations[1..], status);
    }
  }

  /** Every observation has exactly one of the four statuses. */
  lemma {:induction false} StatusesPartition(observations: seq<Observation>)
    ensures CountStatus(observations, Pending) + CountStatus(observations, Validated)
          + CountStatus(observations, Rejected) + CountStatus(observations, Deleted) == |observations|
  {
    if observations != [] {
      StatusesPartition(observations[1..]);
    }
  }

  /** The `stats` object of the user and species reports. */
  function Stats(observations: seq<Observation>): (c: StatusCounts)
    ensures c.total == |observations|
    ensures c.pending + c.validated + c.rejected + c.deleted == c.total
    ensures c.pending == CountStatus(observations, Pending)
    ensures c.validated == CountStatus(observations, Validated)
    ensures c.rejected == CountStatus(observations, Rejected)
    ensures c.deleted == CountStatus(observations, Deleted)
  {
    StatusesPartition(observations);
    StatusCounts(|observations|, CountStatus(observations, Pending), CountStatus(observations, Validated),
                 CountStatus(observations, Rejected), CountStatus(observations, Deleted))
  }

  /** Each observation with its own history rows, newest first. */
  function WithHistory(history: seq<HistoryEntry>, observations: seq<Observation>): (r: seq<AuditedObservation>)
    ensures Listed(r) == observations
    ensures forall i :: 0 <= i < |r| ==> r[i].history == HistoryOf(history, observations[i].id)
  {
    var r := seq(|observations|, i requires 0 <= i < |observations| =>
                   AuditedObservation(observations[i], HistoryOf(history, observations[i].id)));
    assert Listed(r) == observations;
    r
  }

  /** The observations a report lists, in its order. */
  function Listed(entries: seq<AuditedObservation>): (r: seq<Observation>)
    ensures |r| == |entries|
    ensures forall i :: 0 <= i < |r| ==> r[i] == entries[i].observation
  {
    seq(|entries|, i requires 0 <= i < |entries| => entries[i].observation)
  }

  datatype ActivityReport = ActivityReport(stats: StatusCounts, observations: seq<AuditedObservation>)

  /** What the user and species reports promise about the observations
      selected by `p`: each is listed once, newest first, with its own
      history; each status count counts the listed observations with that
      status, and the counts add up to the number listed. */
  ghost predicate ReportsOn(db: Database, r: ActivityReport, p: Observation -> bool)
    reads db
    requires db.Valid()
  {
    && r.stats.total == |r.observations|
    && r.stats.pending == CountStatus(Listed(r.observations), Pending)
    && r.stats.validated == CountStatus(Listed(r.observations), Validated)
    && r.stats.rejected == CountStatus(Listed(r.observations), Rejected)
    && r.stats.deleted == CountStatus(Listed(r.observations), Deleted)
    && r.stats.pending + r.stats.validated + r.stats.rejected + r.stats.deleted == r.stats.total
    && (forall o :: o in Listed(r.observations) <==> o in db.observations.Values && p(o))
    && Distinct(Listed(r.observations))
    && SortedDesc(Listed(r.observations), CreatedAtKey)
    && (forall i :: 0 <= i < |r.observations| ==>
          r.observations[i].history == HistoryOf(db.history, r.observations[i].observation.id))
  }

  function Report(db: Database, p: Observation -> bool): (r: ActivityReport)
    reads db
    requires db.Valid()
    ensures ReportsOn(db, r, p)
  {
    var selected := ObservationsWhere(db, p);
    ActivityReport(Stats(selected), WithHistory(db.history, selected))
  }

  /** `getUserHistory`: the observations authored by `userId` with their
      status counts. */
  function GetUserHistory(db: Database, userId: Id): (r: ActivityReport)
    reads db
    requires db.Valid()
    ensures ReportsOn(db, r, (o: Observation) => o.authorId == userId)
  {
    Report(db, (o: Observation) => o.authorId == userId)
  }

  /** `getSpeciesHistory`: fails for an unknown species; otherwise the
      species and the report over its observations. */
  function GetSpeciesHistory(db: Database, speciesId: Id): (r: Result<(Species, ActivityReport), Error>)
    reads db
    requires db.Valid()
    ensures speciesId !in db.species <==> r == Err(SpeciesNotFound)
    ensures r.Ok? ==>
      && r.value.0 == db.species[speciesId]
      && ReportsOn(db, r.value.1, (o: Observation) => o.speciesId == speciesId)
  {
    if speciesId !in db.species then Err(SpeciesNotFound)
    else Ok((db.species[speciesId], Report(db, (o: Observation) => o.speciesId == speciesId)))
  }

  function DeletedAtKey(o: Observation): int
  {
    if o.deletedAt.Some? then o.deletedAt.value else 0
  }

  /** The deleted observations, each once, most recently deleted first. */
  function DeletedRows(db: Database): (r: seq<Observation>)
    reads db
    requires db.Valid()
    ensures forall o :: o in r <==> o in db.observations.Values && o.status == Deleted
    ensures Distinct(r)
    ensures forall o :: o in r ==> o.deletedAt.Some?
    ensures SortedDesc(r, DeletedAtKey)
  {
    var rows := db.ObservationRows();
    var deleted := Filter(rows, (o: Observation) => o.status == Deleted);
    assert forall o :: o in deleted <==> o in db.observations.Values && o.status == Deleted;
    assert forall o :: o in deleted ==> WellFormed(o);
    var sorted := SortDesc(deleted, DeletedAtKey);
    DistinctSubMultiset(rows, deleted);
    DistinctSubMultiset(deleted, sorted);
    assert forall o :: o in sorted <==> o in multiset(deleted);
    sorted
  }

  /** `getDeletedObservations`: exactly the deleted observations, most
      recently deleted first, each with its own history. */
  function GetDeletedObservations(db: Database): (r: seq<AuditedObservation>)
    reads db
    requires db.Valid()
    ensures forall o :: o in Listed(r) <==> o in db.observations.Values && o.status == Deleted
    ensures Distinct(Listed(r))
    ensures forall o :: o in Listed(r) ==> o.deletedAt.Some?
    ensures SortedDesc(Listed(r), DeletedAtKey)
    ensures forall i :: 0 <= i < |r| ==> r[i].history == HistoryOf(db.history, r[i].observation.id)
  {
    WithHistory(db.history, DeletedRows(db))
  }
}
