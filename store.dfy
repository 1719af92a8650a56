/** The tables of the observation service: species, observations and the
    append-only observation history, held in one database object. Rows are
    never physically removed. */
module ObservationStore {
  import opened Common
  import opened Ordering

  datatype Status = Pending | Validated | Rejected | Deleted

  datatype Action = CreatedAction | ValidatedAction | RejectedAction | DeletedAction | RestoredAction

  datatype Species = Species(
    id: Id,
    authorId: Id,
    name: string,
    description: string,
    dangerLevel: int,
    createdAt: Time)

  datatype Observation = Observation(
    id: Id,
    authorId: Id,
    speciesId: Id,
    description: string,
    status: Status,
    validatedBy: Option<Id>,
    validatedAt: Option<Time>,
    deletedBy: Option<Id>,
    deletedAt: Option<Time>,
    deletedReason: Option<string>,
    createdAt: Time)

  datatype HistoryEntry = HistoryEntry(
    id: Id,
    observationId: Id,
    action: Action,
    performedBy: Id,
    performedByRole: Role,
    previousStatus: Status,
    newStatus: Status,
    comment: string,
    timestamp: Time)

  /** The errors the observation-side services throw, one per message. */
  datatype Error =
    | SpeciesNotFound           // "Espèce non trouvée"
    | DuplicateSpeciesName      // "Une espèce avec ce nom existe déjà"
    | DangerLevelOutOfRange     // "Le niveau de danger doit être compris entre 1 et 5"
    | ObservationNotFound       // "Observation non trouvée"
    | SubmittedTooRecently      // the five-minute cooldown
    | AlreadyProcessed          // "Cette observation a déjà été traitée"
    | OwnObservationValidation  // validating one's own observation
    | OwnObservationRejection   // rejecting one's own observation
    | AlreadyDeleted            // "Cette observation est déjà supprimée"
    | NotDeleted                // "Cette observation n'est pas supprimée"

  /** The deletion fields are set exactly while an observation is deleted,
      and a validated or rejected observation records its moderator. */
  predicate WellFormed(o: Observation)
  {
    && (o.status == Deleted <==> o.deletedBy.Some?)
    && (o.status == Deleted <==> o.deletedAt.Some?)
    && (o.status == Deleted <==> o.deletedReason.Some?)
    && (o.status == Validated || o.status == Rejected ==> o.validatedBy.Some? && o.validatedAt.Some?)
  }

  /** A history row records a transition it can describe: a deletion leaves
      a non-deleted status, a restoration goes from deleted to pending. */
  predicate EntryConsistent(e: HistoryEntry)
  {
    && (e.action == DeletedAction ==> e.previousStatus != Deleted && e.newStatus == Deleted)
    && (e.action == RestoredAction ==> e.previousStatus == Deleted && e.newStatus == Pending)
  }

  /** The most recent history row about `observationId`, if any: none
      exactly when no row concerns it, and otherwise a row about it that no
      later row about it follows. */
  function LastEntryFor(history: seq<HistoryEntry>, observationId: Id): (r: Option<HistoryEntry>)
    ensures r.None? <==> forall e :: e in history ==> e.observationId != observationId
    ensures r.Some? ==> r.value.observationId == observationId
    ensures r.Some? ==> exists i :: 0 <= i < |history| && history[i] == r.value
                          && forall j :: i < j < |history| ==> history[j].observationId != observationId
  {
    if history == [] then None
    else if history[|history| - 1].observationId == observationId then Some(history[|history| - 1])
    else LastEntryFor(history[..|history| - 1], observationId)
  }

  /** Appending a row changes the last row of its own observation only. */
  lemma LastEntryAppend(history: seq<HistoryEntry>, e: HistoryEntry, observationId: Id)
    ensures LastEntryFor(history + [e], observationId)
         == if e.observationId == observationId then Some(e) else LastEntryFor(history, observationId)
  {
    assert (history + [e])[..|history|] == history;
  }

  /** A deleted observation is explained by the last row written about it:
      the deletion, by the recorded administrator. The deletion time and the
      row's timestamp are two separate clock readings, so they need not agree. */
  predicate DeletionAudited(o: Observation, history: seq<HistoryEntry>)
  {
    o.status == Deleted ==>
      var last := LastEntryFor(history, o.id);
      && last.Some?
      && last.value.action == DeletedAction
      && o.deletedBy == Some(last.value.performedBy)
  }

  /** Keys are exactly `0 .. n-1`, as handed out by an id counter. */
  ghost predicate Dense<T>(m: map<Id, T>, n: nat)
  {
    forall k: Id :: k in m <==> k < n
  }

  /** A table read in id order, as `findMany` without `orderBy`. */
  function Rows<T>(m: map<Id, T>, n: nat): (r: seq<T>)
    requires forall k: Id :: k < n ==> k in m
    ensures |r| == n
    ensures forall k :: 0 <= k < n ==> r[k] == m[k]
  {
    seq(n, k requires 0 <= k < n => m[k])
  }

  /** No two species share a name (the unique constraint on `name`). */
  ghost predicate UniqueNames(species: map<Id, Species>)
  {
    forall a, b :: a in species && b in species && species[a].name == species[b].name ==> a == b
  }

  /** What holds of the tables at all times: dense ids matching their
      keys, danger levels in range, unique species names, well-formed and
      audited observations of known species, and a history numbered in
      order whose rows describe transitions of known observations. */
  ghost predicate TablesValid(species: map<Id, Species>, observations: map<Id, Observation>,
                              history: seq<HistoryEntry>, nextSpeciesId: nat, nextObservationId: nat)
  {
    && Dense(species, nextSpeciesId)
    && Dense(observations, nextObservationId)
    && (forall k :: k in species ==> species[k].id == k && 1 <= species[k].dangerLevel <= 5)
    && UniqueNames(species)
    && (forall k :: k in observations ==>
          && observations[k].id == k
          && observations[k].speciesId in species
          && WellFormed(observations[k])
          && DeletionAudited(observations[k], history))
    && (forall i :: 0 <= i < |history| ==>
          && history[i].id == i
          && history[i].observationId in observations
          && EntryConsistent(history[i]))
  }

  /** Rewriting one observation without logging keeps the tables valid,
      provided the new row is well-formed and explained by the history. */
  lemma UpdateRow(species: map<Id, Species>, observations: map<Id, Observation>, history: seq<HistoryEntry>,
                  nextSpeciesId: nat, nextObservationId: nat, updated: Observation)
    requires TablesValid(species, observations, history, nextSpeciesId, nextObservationId)
    requires updated.id in observations && updated.speciesId == observations[updated.id].speciesId
    requires WellFormed(updated) && DeletionAudited(updated, history)
    ensures TablesValid(species, observations[updated.id := updated], history, nextSpeciesId, nextObservationId)
  {
  }

  /** Rewriting one observation and logging one row about it keeps the
      tables valid, provided the new row is well-formed and explained by
      the new history. */
  lemma UpdateAndLog(species: map<Id, Species>, observations: map<Id, Observation>, history: seq<HistoryEntry>,
                     nextSpeciesId: nat, nextObservationId: nat, updated: Observation, entry: HistoryEntry)
    requires TablesValid(species, observations, history, nextSpeciesId, nextObservationId)
    requires updated.id in observations && updated.speciesId == observations[updated.id].speciesId
    requires WellFormed(updated) && DeletionAudited(updated, history + [entry])
    requires entry.id == |history| && entry.observationId == updated.id && EntryConsistent(entry)
    ensures TablesValid(species, observations[updated.id := updated], history + [entry],
                        nextSpeciesId, nextObservationId)
  {
    forall k | k in observations && k != updated.id
      ensures DeletionAudited(observations[k], history + [entry])
    {
      LastEntryAppend(history, entry, k);
    }
  }

  class Database {
    var species: map<Id, Species>
    var observations: map<Id, Observation>
    var history: seq<HistoryEntry>
    var nextSpeciesId: nat
    var nextObservationId: nat

    ghost predicate Valid()
      reads this
    {
      TablesValid(species, observations, history, nextSpeciesId, nextObservationId)
    }

    constructor ()
      ensures Valid()
      ensures species == map[] && observations == map[] && history == []
    {
      species, observations, history := map[], map[], [];
      nextSpeciesId, nextObservationId := 0, 0;
    }

    /** Every observation once, in id order. */
    function ObservationRows(): (r: seq<Observation>)
      reads this
      requires Valid()
      ensures forall o :: o in r <==> o in observations.Values
      ensures Distinct(r)
    {
      var r := Rows(observations, nextObservationId);
      assert forall o :: o in observations.Values ==> o == r[o.id];
      r
    }

    /** Every species once, in id order. */
    function SpeciesRows(): (r: seq<Species>)
      reads this
      requires Valid()
      ensures forall s :: s in r <==> s in species.Values
      ensures Distinct(r)
    {
      var r := Rows(species, nextSpeciesId);
      assert forall s :: s in species.Values ==> s == r[s.id];
      r
    }
  }

  function CreatedAtKey(o: Observation): int
  {
    o.createdAt
  }

  function TimestampKey(e: HistoryEntry): int
  {
    e.timestamp
  }

  /** `findMany({ where: p, orderBy: { createdAt: 'desc' } })` on the
      observation table: every matching observation once, newest first. */
  function ObservationsWhere(db: Database, p: Observation -> bool): (r: seq<Observation>)
    reads db
    requires db.Valid()
    ensures forall o :: o in r <==> o in db.observations.Values && p(o)
    ensures Distinct(r)
    ensures SortedDesc(r, CreatedAtKey)
  {
    var rows := db.ObservationRows();
    var matching := Filter(rows, p);
    var r := SortDesc(matching, CreatedAtKey);
    DistinctSubMultiset(rows, matching);
    DistinctSubMultiset(matching, r);
    assert forall o :: o in r <==> o in multiset(matching);
    r
  }

  /** The history rows of one observation, newest first: every row about
      it, as often as the history holds it, and no other row. */
  function HistoryOf(history: seq<HistoryEntry>, observationId: Id): (r: seq<HistoryEntry>)
    ensures forall e :: e in r <==> e in history && e.observationId == observationId
    ensures forall e {:trigger multiset(r)[e]} ::
      multiset(r)[e] == if e.observationId == observationId then multiset(history)[e] else 0
    ensures multiset(r) <= multiset(history)
    ensures SortedDesc(r, TimestampKey)
  {
    var matching := Filter(history, (e: HistoryEntry) => e.observationId == observationId);
    var r := SortDesc(matching, TimestampKey);
    assert forall e :: e in r <==> e in multiset(matching);
    r
  }
}
