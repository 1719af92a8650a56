/** The species catalogue: creation under a unique name and a danger level
    in [1, 5], and the two read queries. */
module SpeciesService {
  import opened Common
  import opened Ordering
  import opened ObservationStore

  const MinDangerLevel: int := 1
  const MaxDangerLevel: int := 5

  /** Some species already carries `name`. */
  predicate NameTaken(species: map<Id, Species>, name: string)
  {
    exists k :: k in species && species[k].name == name
  }

  /** Adds a species. The name check comes first, so a duplicate name is
      reported even when the danger level is out of range as well. */
  method CreateSpecies(db: Database, authorId: Id, name: string, description: string, dangerLevel: int, now: Time)
    returns (r: Result<Species, Error>)
    requires db.Valid()
    modifies db
    ensures db.Valid()
    ensures db.observations == old(db.observations) && db.history == old(db.history)
    ensures NameTaken(old(db.species), name) ==> r == Err(DuplicateSpeciesName)
    ensures (!NameTaken(old(db.species), name) && !(MinDangerLevel <= dangerLevel <= MaxDangerLevel))
      ==> r == Err(DangerLevelOutOfRange)
    ensures r.Ok? <==> (!NameTaken(old(db.species), name) && MinDangerLevel <= dangerLevel <= MaxDangerLevel)
    ensures r.Err? ==> db.species == old(db.species)
    ensures r.Ok? ==>
      && r.value.id !in old(db.species)
      && r.value == Species(r.value.id, authorId, name, description, dangerLevel, now)
      && db.species == old(db.species)[r.value.id := r.value]
  {
    if NameTaken(db.species, name) {
      return Err(DuplicateSpeciesName);
    }
    if dangerLevel < MinDangerLevel || dangerLevel > MaxDangerLevel {
      return Err(DangerLevelOutOfRange);
    }
    var id := db.nextSpeciesId;
    var s := Species(id, authorId, name, description, dangerLevel, now);
    db.species := db.species[id := s];
    db.nextSpeciesId := id + 1;
    r := Ok(s);
  }

  /** A species with the observations attached by a query's `include`. */
  datatype SpeciesWithObservations = SpeciesWithObservations(species: Species, observations: seq<Observation>)

  /** `getSpeciesById`: fails for an unknown id; otherwise the species with
      all its observations, each once, newest first. */
  function GetSpeciesById(db: Database, speciesId: Id): (r: Result<SpeciesWithObservations, Error>)
    reads db
    requires db.Valid()
    ensures speciesId !in db.species <==> r == Err(SpeciesNotFound)
    ensures r.Ok? ==>
      && r.value.species == db.species[speciesId]
      && (forall o :: o in r.value.observations <==> o in db.observations.Values && o.speciesId == speciesId)
      && Distinct(r.value.observations)
      && SortedDesc(r.value.observations, CreatedAtKey)
  {
    if speciesId !in db.species then Err(SpeciesNotFound)
    else Ok(SpeciesWithObservations(db.species[speciesId],
                                    ObservationsWhere(db, (o: Observation) => o.speciesId == speciesId)))
  }

  function SpeciesCreatedAtKey(s: Species): int
  {
    s.createdAt
  }

  /** The species of a listing, in its order. */
  function SpeciesOf(entries: seq<SpeciesWithObservations>): (r: seq<Species>)
    ensures |r| == |entries|
    ensures forall i :: 0 <= i < |r| ==> r[i] == entries[i].species
  {
    seq(|entries|, i requires 0 <= i < |entries| => entries[i].species)
  }

  /** `attached` holds exactly the VALIDATED observations of `s` among
      `observations`, each as often as `observations` holds it. */
  ghost predicate ValidatedOf(observations: seq<Observation>, s: Species, attached: seq<Observation>)
  {
    && (forall o :: o in attached <==> o in observations && o.speciesId == s.id && o.status == Validated)
    && (forall o {:trigger multiset(attached)[o]} :: multiset(attached)[o]
          == if o.speciesId == s.id && o.status == Validated then multiset(observations)[o] else 0)
  }

  /** Attaches to each species its VALIDATED observations, in id order. */
  function WithValidated(observations: seq<Observation>, species: seq<Species>): (r: seq<SpeciesWithObservations>)
    ensures SpeciesOf(r) == species
    ensures forall i :: 0 <= i < |r| ==> ValidatedOf(observations, r[i].species, r[i].observations)
  {
    if species == [] then []
    else
      var sid := species[0].id;
      var first := SpeciesWithObservations(species[0],
                     Filter(observations, (o: Observation) => o.speciesId == sid && o.status == Validated));
      var rest := WithValidated(observations, species[1..]);
      assert ValidatedOf(observations, first.species, first.observations);
      var r := [first] + rest;
      assert SpeciesOf(r) == [species[0]] + SpeciesOf(rest);
      r
  }

  /** `getAllSpecies`: every species once, newest first, each carrying
      exactly its VALIDATED observations. */
  function GetAllSpecies(db: Database): (r: seq<SpeciesWithObservations>)
    reads db
    requires db.Valid()
    ensures forall s :: s in SpeciesOf(r) <==> s in db.species.Values
    ensures Distinct(SpeciesOf(r))
    ensures SortedDesc(SpeciesOf(r), SpeciesCreatedAtKey)
    ensures forall i :: 0 <= i < |r| ==> ValidatedOf(db.ObservationRows(), r[i].species, r[i].observations)
  {
    var rows := db.SpeciesRows();
    var sorted := SortDesc(rows, SpeciesCreatedAtKey);
    DistinctSubMultiset(rows, sorted);
    assert forall s :: s in sorted <==> s in multiset(rows);
    WithValidated(db.ObservationRows(), sorted)
  }
}
