/** The taxonomy endpoints: the one-hour cache in front of the statistics
    pass, the forced regeneration, and the classification lookup. The
    observation service is reached through two functions of the outgoing
    `Authorization` header; the clock is a parameter. */
module TaxonomyController {
  import opened Common
  import opened Text
  import opened AuthMiddleware
  import opened TaxonomyKeywords
  import opened TaxonomyService

  /** How long a snapshot is served without regeneration: one hour. */
  const CacheWindowMillis: int := 60 * 60 * 1000

  /** `new Date(lastCalculated) > oneHourAgo`. */
  predicate Fresh(s: Snapshot, now: Time)
  {
    s.lastCalculated > now - CacheWindowMillis
  }

  /** An HTTP answer of the taxonomy endpoints. */
  datatype Reply<+T> = Reply(status: nat, payload: Result<T, TaxonomyError>)

  /** What `GET /taxonomy/stats` returns: the stored statistics, or the
      outcome of a new pass. */
  datatype StatsData = Cached(overview: Overview) | Generated(report: StatsReport)

  /** The header the service sends to the observation service. */
  function OutgoingAuthorization(token: string): (r: string)
    ensures StartsWith(r, "Bearer ") && r[7..] == token
  {
    "Bearer " + token
  }

  /** What the controllers pass on as the token, as written: the whole
      incoming `Authorization` header, `Bearer ` included. */
  function AsWrittenForwardedToken(authorization: Option<string>): string
  {
    if authorization.None? then "undefined" else authorization.value
  }

  /** As written, the observation service receives `Bearer Bearer <t>` and
      reads the word `Bearer` as the token, whatever the caller's token
      was: unless that token is itself `Bearer`, the one verified is not
      the caller's. */
  lemma AsWrittenForwardLosesToken(t: string)
    requires t != [] && ' ' !in t
    ensures ExtractToken(Some(OutgoingAuthorization(AsWrittenForwardedToken(Some("Bearer " + t))))) == Some("Bearer")
    ensures t != "Bearer" ==>
      ExtractToken(Some(OutgoingAuthorization(AsWrittenForwardedToken(Some("Bearer " + t))))) != ExtractToken(Some("Bearer " + t))
  {
    var inner := "Bearer " + t;
    assert OutgoingAuthorization(inner) == "Bearer " + inner;
    BearerSplit(inner);
    BearerSplit(t);
    assert Split(OutgoingAuthorization(inner), ' ')[1] == "Bearer";
    BearerHeaderYieldsToken(t);
  }

  /** The token the controllers should pass on: the one the incoming header
      carries, as the request guard extracts it. */
  function ForwardedToken(authorization: Option<string>): string
  {
    var token := ExtractToken(authorization);
    if token.Some? then token.value else ""
  }

  /** With the corrected forwarding, the observation service extracts the
      caller's own token from the outgoing header. */
  lemma ForwardKeepsToken(authorization: Option<string>)
    requires ExtractToken(authorization).Some?
    ensures ExtractToken(Some(OutgoingAuthorization(ForwardedToken(authorization)))) == ExtractToken(authorization)
  {
    BearerHeaderYieldsToken(ExtractToken(authorization).value);
  }

  /** The observations fetch of one pass, bound to its header. */
  function ObservationsVia(fetchObservations: (string, Id) -> Option<seq<FetchedObservation>>, header: string)
    : Id -> Option<seq<FetchedObservation>>
  {
    (id: Id) => fetchObservations(header, id)
  }

  /** The species list the pass works on for a request. */
  function SpeciesFor(authorization: Option<string>, fetchSpecies: string -> Result<seq<FetchedSpecies>, string>)
    : Result<seq<FetchedSpecies>, string>
  {
    fetchSpecies(OutgoingAuthorization(ForwardedToken(authorization)))
  }

  /** The per-species records of the pass run for a request. */
  function PassFor(authorization: Option<string>, fetchSpecies: string -> Result<seq<FetchedSpecies>, string>,
                   fetchObservations: (string, Id) -> Option<seq<FetchedObservation>>, now: Time): seq<SpeciesStat>
    requires SpeciesFor(authorization, fetchSpecies).Ok?
  {
    var header := OutgoingAuthorization(ForwardedToken(authorization));
    StatsOf(SpeciesFor(authorization, fetchSpecies).value, ObservationsVia(fetchObservations, header), now)
  }

  /** One statistics pass for a request, with the corrected token. */
  method Regenerate(db: TaxonomyDb, authorization: Option<string>,
                    fetchSpecies: string -> Result<seq<FetchedSpecies>, string>,
                    fetchObservations: (string, Id) -> Option<seq<FetchedObservation>>, now: Time)
    returns (r: Result<StatsReport, TaxonomyError>)
    requires db.Valid()
    modifies db
    ensures db.Valid()
    ensures var species := SpeciesFor(authorization, fetchSpecies);
      && (r.Ok? <==> species.Ok? && species.value != [])
      && (r.Err? ==> db.classifications == old(db.classifications) && db.stats == old(db.stats))
      && (r.Ok? ==>
            var stats := PassFor(authorization, fetchSpecies, fetchObservations, now);
            && r.value == StatsReport(SnapshotOf(stats, |stats|, now), Details(stats))
            && db.stats == [r.value.stats]
            && db.classifications == Upserted(old(db.classifications), stats))
  {
    var header := OutgoingAuthorization(ForwardedToken(authorization));
    r := GenerateTaxonomyStats(db, fetchSpecies(header), ObservationsVia(fetchObservations, header), now);
  }

  /** `GET /taxonomy/stats`: a snapshot younger than an hour is served as
      is, with the stored classifications; a missing or older one is
      regenerated, and a failed regeneration of an old snapshot is tried
      once more. A failure answers 500. */
  method GetStats(db: TaxonomyDb, authorization: Option<string>,
                  fetchSpecies: string -> Result<seq<FetchedSpecies>, string>,
                  fetchObservations: (string, Id) -> Option<seq<FetchedObservation>>, now: Time)
    returns (reply: Reply<StatsData>)
    requires db.Valid()
    modifies db
    ensures db.Valid()
    ensures old(db.stats) != [] && Fresh(old(db.stats)[0], now) ==>
      && reply == Reply(200, Ok(Cached(Overview(old(db.stats)[0], old(db.classifications).Values))))
      && db.stats == old(db.stats) && db.classifications == old(db.classifications)
    ensures !(old(db.stats) != [] && Fresh(old(db.stats)[0], now)) ==>
      var species := SpeciesFor(authorization, fetchSpecies);
      && (reply.payload.Ok? <==> species.Ok? && species.value != [])
      && (reply.payload.Err? ==>
            reply.status == 500 && db.stats == old(db.stats) && db.classifications == old(db.classifications))
      && (reply.payload.Ok? ==>
            var stats := PassFor(authorization, fetchSpecies, fetchObservations, now);
            && reply == Reply(200, Ok(Generated(StatsReport(SnapshotOf(stats, |stats|, now), Details(stats)))))
            && db.stats == [reply.payload.value.report.stats]
            && db.classifications == Upserted(old(db.classifications), stats))
  {
    var existing := GetTaxonomyStats(db);
    var result: Result<StatsData, TaxonomyError>;
    if existing.Ok? && Fresh(existing.value.globalStats, now) {
      result := Ok(Cached(existing.value));
    } else {
      var generated := Regenerate(db, authorization, fetchSpecies, fetchObservations, now);
      if generated.Err? && existing.Ok? {
        // The regeneration throws inside the inner `try`, whose `catch`
        // regenerates once more.
        generated := Regenerate(db, authorization, fetchSpecies, fetchObservations, now);
      }
      result := if generated.Ok? then Ok(Generated(generated.value)) else Err(generated.error);
    }
    reply := if result.Ok? then Reply(200, result) else Reply(500, result);
  }

  /** `POST /taxonomy/stats/generate`: always regenerates; a failure
      answers 500. */
  method GenerateStats(db: TaxonomyDb, authorization: Option<string>,
                       fetchSpecies: string -> Result<seq<FetchedSpecies>, string>,
                       fetchObservations: (string, Id) -> Option<seq<FetchedObservation>>, now: Time)
    returns (reply: Reply<StatsReport>)
    requires db.Valid()
    modifies db
    ensures db.Valid()
    ensures var species := SpeciesFor(authorization, fetchSpecies);
      && (reply.payload.Ok? <==> species.Ok? && species.value != [])
      && (reply.payload.Err? ==>
            reply.status == 500 && db.stats == old(db.stats) && db.classifications == old(db.classifications))
      && (reply.payload.Ok? ==>
            var stats := PassFor(authorization, fetchSpecies, fetchObservations, now);
            && reply == Reply(200, Ok(StatsReport(SnapshotOf(stats, |stats|, now), Details(stats))))
            && db.stats == [reply.payload.value.stats]
            && db.classifications == Upserted(old(db.classifications), stats))
  {
    var r := Regenerate(db, authorization, fetchSpecies, fetchObservations, now);
    reply := if r.Ok? then Reply(200, r) else Reply(500, r);
  }

  /** `GET /taxonomy/species/:id/classification`: 404 for a species that
      has never been classified. */
  function GetSpeciesClassification(db: TaxonomyDb, speciesId: Id): (reply: Reply<Classification>)
    reads db
    requires db.Valid()
    ensures reply.status == 404 <==> speciesId !in db.classifications
    ensures reply.status == 404 ==> reply.payload == Err(ClassificationNotFound)
    ensures reply.status != 404 ==>
      reply.status == 200 && reply.payload == Ok(db.classifications[speciesId])
      && reply.payload.value.speciesId == speciesId
  {
    var r := TaxonomyService.GetSpeciesClassification(db, speciesId);
    if r.Err? then Reply(404, r) else Reply(200, r)
  }
}
