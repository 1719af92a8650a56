/** The taxonomy service: heuristic classification of a species from its
    name and the keywords of its observations, the upsert of that
    classification, and the statistics pass that classifies every species
    and replaces the single stored statistics snapshot. The two fetches
    from the observation service are inputs. */
module TaxonomyService {
  import opened Common
  import opened Text
  import opened Tally
  import opened TaxonomyKeywords

  /** A species as listed by the observation service. */
  datatype FetchedSpecies = FetchedSpecies(id: Id, name: string)

  const CephalopodaGigantea := "Cephalopoda Gigantea"
  const SerpentiformesAbyssales := "Serpentiformes Abyssales"
  const PiscesProfundis := "Pisces Profundis"
  const CnidariaLuminosa := "Cnidaria Luminosa"
  const CrustaceaGigantis := "Crustacea Gigantis"
  const DefaultFamily := "Familia Incertae Sedis"

  /** Every family the classifier can produce. */
  const FamilyNames: set<string> :=
    {CephalopodaGigantea, SerpentiformesAbyssales, PiscesProfundis, CnidariaLuminosa, CrustaceaGigantis, DefaultFamily}

  /** `generateFamily`: the first rule whose name fragment occurs in the
      lower-cased species name, or whose keyword is among the keywords. */
  function GenerateFamily(speciesName: string, keywords: seq<string>): (r: string)
    ensures r in FamilyNames && r != ""
    ensures Contains(Lower(speciesName), "kraken") ==> r == CephalopodaGigantea
  {
    var name := Lower(speciesName);
    if Contains(name, "kraken") || Contains(name, "tentacul") || "tentacule" in keywords then CephalopodaGigantea
    else if Contains(name, "serpent") || "serpent" in keywords || "anguille" in keywords then SerpentiformesAbyssales
    else if Contains(name, "poisson") || "nageoire" in keywords || "écaille" in keywords then PiscesProfundis
    else if Contains(name, "méduse") || "méduse" in keywords || "transparent" in keywords then CnidariaLuminosa
    else if Contains(name, "crustacé") || "carapace" in keywords || "pinces" in keywords then CrustaceaGigantis
    else DefaultFamily
  }

  /** One row of the classification table: a family, the fragments looked
      for in the name and the keywords looked for in the keyword list. */
  datatype FamilyRule = FamilyRule(family: string, nameParts: seq<string>, keywordParts: seq<string>)

  /** The classification rules, in the order they are tried. */
  const FamilyRules: seq<FamilyRule> := [
    FamilyRule(CephalopodaGigantea, ["kraken", "tentacul"], ["tentacule"]),
    FamilyRule(SerpentiformesAbyssales, ["serpent"], ["serpent", "anguille"]),
    FamilyRule(PiscesProfundis, ["poisson"], ["nageoire", "écaille"]),
    FamilyRule(CnidariaLuminosa, ["méduse"], ["méduse", "transparent"]),
    FamilyRule(CrustaceaGigantis, ["crustacé"], ["carapace", "pinces"])
  ]

  /** Some fragment of `parts` occurs in `name`. */
  predicate NameHasPart(name: string, parts: seq<string>)
  {
    parts != [] && (Contains(name, parts[0]) || NameHasPart(name, parts[1..]))
  }

  /** Some word of `parts` is among the keywords. */
  predicate KeywordsHavePart(keywords: seq<string>, parts: seq<string>)
  {
    parts != [] && (parts[0] in keywords || KeywordsHavePart(keywords, parts[1..]))
  }

  predicate RuleMatches(rule: FamilyRule, name: string, keywords: seq<string>)
  {
    NameHasPart(name, rule.nameParts) || KeywordsHavePart(keywords, rule.keywordParts)
  }

  /** The family of the first matching rule, or the default family. */
  function FirstMatch(rules: seq<FamilyRule>, name: string, keywords: seq<string>): string
  {
    if rules == [] then DefaultFamily
    else if RuleMatches(rules[0], name, keywords) then rules[0].family
    else FirstMatch(rules[1..], name, keywords)
  }

  /** The classifier is the rule table read top to bottom: the first rule
      that matches decides, and no match gives the default family. */
  lemma FamilyFollowsRules(speciesName: string, keywords: seq<string>)
    ensures GenerateFamily(speciesName, keywords) == FirstMatch(FamilyRules, Lower(speciesName), keywords)
  {
    var name := Lower(speciesName);
    var rules := FamilyRules;
    RuleMatchesTwoOne(rules[0], name, keywords);
    RuleMatchesOneTwo(rules[1], name, keywords);
    RuleMatchesOneTwo(rules[2], name, keywords);
    RuleMatchesOneTwo(rules[3], name, keywords);
    RuleMatchesOneTwo(rules[4], name, keywords);
    assert FirstMatch(rules, name, keywords) ==
      if RuleMatches(rules[0], name, keywords) then rules[0].family else FirstMatch(rules[1..], name, keywords);
    assert rules[1..][0] == rules[1] && rules[1..][1..] == rules[2..];
    assert rules[2..][0] == rules[2] && rules[2..][1..] == rules[3..];
    assert rules[3..][0] == rules[3] && rules[3..][1..] == rules[4..];
    assert rules[4..][0] == rules[4] && rules[4..][1..] == [];
    assert FirstMatch(rules[4..], name, keywords) ==
      if RuleMatches(rules[4], name, keywords) then CrustaceaGigantis else DefaultFamily;
    assert FirstMatch(rules[3..], name, keywords) ==
      if RuleMatches(rules[3], name, keywords) then CnidariaLuminosa else FirstMatch(rules[4..], name, keywords);
    assert FirstMatch(rules[2..], name, keywords) ==
      if RuleMatches(rules[2], name, keywords) then PiscesProfundis else FirstMatch(rules[3..], name, keywords);
    assert FirstMatch(rules[1..], name, keywords) ==
      if RuleMatches(rules[1], name, keywords) then SerpentiformesAbyssales else FirstMatch(rules[2..], name, keywords);
  }

  /** A rule with two name fragments and one keyword. */
  lemma RuleMatchesTwoOne(rule: FamilyRule, name: string, keywords: seq<string>)
    requires |rule.nameParts| == 2 && |rule.keywordParts| == 1
    ensures RuleMatches(rule, name, keywords) <==>
      Contains(name, rule.nameParts[0]) || Contains(name, rule.nameParts[1]) || rule.keywordParts[0] in keywords
  {
    var names, words := rule.nameParts, rule.keywordParts;
    assert names[1..][0] == names[1] && names[1..][1..] == [];
    assert NameHasPart(name, names[1..]) <==> Contains(name, names[1]);
    assert words[1..] == [];
    assert KeywordsHavePart(keywords, words) <==> words[0] in keywords;
  }

  /** A rule with one name fragment and two keywords. */
  lemma RuleMatchesOneTwo(rule: FamilyRule, name: string, keywords: seq<string>)
    requires |rule.nameParts| == 1 && |rule.keywordParts| == 2
    ensures RuleMatches(rule, name, keywords) <==>
      Contains(name, rule.nameParts[0]) || rule.keywordParts[0] in keywords || rule.keywordParts[1] in keywords
  {
    var names, words := rule.nameParts, rule.keywordParts;
    assert names[1..] == [];
    assert NameHasPart(name, names) <==> Contains(name, names[0]);
    assert words[1..][0] == words[1] && words[1..][1..] == [];
    assert KeywordsHavePart(keywords, words[1..]) <==> words[1] in keywords;
  }

  /** `generateSubSpecies`: a "var. profundis" variety above ten
      observations, and a "var. giganteus" one after it above twenty. */
  function GenerateSubSpecies(speciesName: string, observationCount: nat): (r: seq<string>)
    ensures |r| == (if observationCount > 20 then 2 else if observationCount > 10 then 1 else 0)
    ensures |r| >= 1 ==> r[0] == speciesName + " var. profundis"
    ensures |r| == 2 ==> r[1] == speciesName + " var. giganteus"
  {
    (if observationCount > 10 then [speciesName + " var. profundis"] else [])
    + (if observationCount > 20 then [speciesName + " var. giganteus"] else [])
  }

  const DefaultBranch := "Branche évolutive indéterminée"

  /** The evolution branch of each known family. */
  const BranchMap: map<string, string> := map[
    CephalopodaGigantea := "Mollusca → Cephalopoda → Forme Géante",
    SerpentiformesAbyssales := "Chordata → Actinopterygii → Adaptation Abyssale",
    PiscesProfundis := "Chordata → Osteichthyes → Spécialisation Profondeur",
    CnidariaLuminosa := "Cnidaria → Scyphozoa → Bioluminescence",
    CrustaceaGigantis := "Arthropoda → Crustacea → Gigantisme Abyssal"
  ]

  /** `determineEvolutionBranch`: the branch of a known family, the
      undetermined branch otherwise. */
  function DetermineEvolutionBranch(family: string): (r: string)
    ensures family in BranchMap ==> r == BranchMap[family]
    ensures r == DefaultBranch <==> family !in BranchMap
    ensures family in FamilyNames ==> (r == DefaultBranch <==> family == DefaultFamily)
  {
    if family in BranchMap then BranchMap[family] else DefaultBranch
  }

  /** A stored classification, one per species. */
  datatype Classification = Classification(
    speciesId: Id,
    speciesName: string,
    family: string,
    subSpecies: seq<string>,
    evolutionBranch: string,
    keywords: seq<string>,
    updatedAt: Time)

  /** What `classifySpecies` stores for a species and its observations. */
  function ClassificationOf(species: FetchedSpecies, observations: seq<FetchedObservation>, now: Time): Classification
  {
    var keywords := Keywords(Some(observations));
    var family := GenerateFamily(species.name, keywords);
    Classification(species.id, species.name, family, GenerateSubSpecies(species.name, |observations|),
                   DetermineEvolutionBranch(family), keywords, now)
  }

  /** The global statistics snapshot. */
  datatype Snapshot = Snapshot(
    totalSpecies: nat,
    totalObservations: nat,
    averageObservationsPerSpecies: real,
    mostObservedSpeciesId: Option<Id>,
    mostObservedSpeciesName: Option<string>,
    mostObservedSpeciesCount: nat,
    familyDistribution: seq<Entry>,
    lastCalculated: Time)

  /** What holds of every snapshot the statistics pass writes. */
  ghost predicate Consistent(s: Snapshot)
  {
    && s.totalSpecies > 0
    && Total(s.familyDistribution) == s.totalSpecies
    && s.averageObservationsPerSpecies == s.totalObservations as real / s.totalSpecies as real
    && s.mostObservedSpeciesCount <= s.totalObservations
    && (s.mostObservedSpeciesId.None? <==> s.totalObservations == 0)
    && (s.mostObservedSpeciesId.None? <==> s.mostObservedSpeciesName.None?)
    && (s.mostObservedSpeciesId.None? <==> s.mostObservedSpeciesCount == 0)
  }

  /** The errors of the taxonomy service. */
  datatype TaxonomyError =
    | SpeciesFetchFailed(message: string)  // the species list could not be fetched
    | NoSpeciesFound                       // "Aucune espèce trouvée dans observation-service"
    | NoStatsAvailable                     // "Aucune statistique disponible. ..."
    | ClassificationNotFound               // "Classification non trouvée pour cette espèce"

  /** The taxonomy tables: one classification per species and the
      statistics table, which holds at most one snapshot. */
  class TaxonomyDb {
    var classifications: map<Id, Classification>
    var stats: seq<Snapshot>

    ghost predicate Valid()
      reads this
    {
      && (forall k :: k in classifications ==> classifications[k].speciesId == k)
      && |stats| <= 1
      && (forall i :: 0 <= i < |stats| ==> Consistent(stats[i]))
    }

    constructor ()
      ensures Valid() && classifications == map[] && stats == []
    {
      classifications, stats := map[], [];
    }
  }

  /** `classifySpecies`: computes the classification and inserts it, or
      replaces the one stored for the same species. */
  method ClassifySpecies(db: TaxonomyDb, species: FetchedSpecies, observations: seq<FetchedObservation>, now: Time)
    returns (c: Classification)
    requires db.Valid()
    modifies db
    ensures db.Valid()
    ensures c == ClassificationOf(species, observations, now)
    ensures db.classifications == old(db.classifications)[species.id := c]
    ensures db.stats == old(db.stats)
  {
    var keywords := ExtractKeywords(Some(observations));
    var family := GenerateFamily(species.name, keywords);
    var subSpecies := GenerateSubSpecies(species.name, |observations|);
    var evolutionBranch := DetermineEvolutionBranch(family);
    c := Classification(species.id, species.name, family, subSpecies, evolutionBranch, keywords, now);
    db.classifications := db.classifications[species.id := c];
  }

  /** `fetchObservationsForSpecies`: a failed fetch, or an answer without
      observations, counts as no observations. */
  function ObservationsOrEmpty(fetched: Option<seq<FetchedObservation>>): (r: seq<FetchedObservation>)
    ensures fetched.None? ==> r == []
    ensures fetched.Some? ==> r == fetched.value
  {
    if fetched.None? then [] else fetched.value
  }

  /** One species in the statistics pass. */
  datatype SpeciesStat = SpeciesStat(
    species: FetchedSpecies,
    observations: seq<FetchedObservation>,
    observationCount: nat,
    classification: Classification)

  function SpeciesStatOf(species: FetchedSpecies, fetchObservations: Id -> Option<seq<FetchedObservation>>, now: Time)
    : SpeciesStat
  {
    var observations := ObservationsOrEmpty(fetchObservations(species.id));
    SpeciesStat(species, observations, |observations|, ClassificationOf(species, observations, now))
  }

  /** The per-species records of the pass, in the order of the list. */
  function StatsOf(species: seq<FetchedSpecies>, fetchObservations: Id -> Option<seq<FetchedObservation>>, now: Time)
    : (r: seq<SpeciesStat>)
    ensures |r| == |species|
  {
    if species == [] then []
    else StatsOf(species[..|species| - 1], fetchObservations, now)
         + [SpeciesStatOf(species[|species| - 1], fetchObservations, now)]
  }

  /** The pass handles the species in list order: its i-th record is the
      i-th species with its fetched observations and their classification. */
  lemma {:induction false} StatsOfAt(species: seq<FetchedSpecies>, fetchObservations: Id -> Option<seq<FetchedObservation>>,
                                     now: Time, i: int)
    requires 0 <= i < |species|
    ensures StatsOf(species, fetchObservations, now)[i] == SpeciesStatOf(species[i], fetchObservations, now)
  {
    var init := species[..|species| - 1];
    if i < |species| - 1 {
      StatsOfAt(init, fetchObservations, now, i);
    }
  }

  /** A species whose observations cannot be fetched still takes part in
      the pass, with no observations, no keywords and no sub-species. */
  lemma FailedFetchCountsZero(species: seq<FetchedSpecies>, fetchObservations: Id -> Option<seq<FetchedObservation>>,
                              now: Time, i: int)
    requires 0 <= i < |species| && fetchObservations(species[i].id).None?
    ensures var stat := StatsOf(species, fetchObservations, now)[i];
      && stat.species == species[i]
      && stat.observations == [] && stat.observationCount == 0
      && stat.classification.keywords == [] && stat.classification.subSpecies == []
  {
    StatsOfAt(species, fetchObservations, now, i);
  }

  /** The classification table after upserting each record in turn. */
  function Upserted(classifications: map<Id, Classification>, stats: seq<SpeciesStat>): map<Id, Classification>
  {
    if stats == [] then classifications
    else Upserted(classifications, stats[..|stats| - 1])[stats[|stats| - 1].species.id := stats[|stats| - 1].classification]
  }

  /** After upserting, the table holds the species it held before and
      every species of the pass, and nothing else. */
  lemma {:induction false} UpsertedKeys(classifications: map<Id, Classification>, stats: seq<SpeciesStat>)
    ensures forall k :: k in Upserted(classifications, stats) <==>
      k in classifications || exists i :: 0 <= i < |stats| && stats[i].species.id == k
  {
    if stats != [] {
      var init := stats[..|stats| - 1];
      UpsertedKeys(classifications, init);
      assert forall i :: 0 <= i < |init| ==> init[i] == stats[i];
    }
  }

  /** The classification stored for a species of the pass is the one
      computed for its last occurrence in the list. */
  lemma {:induction false} UpsertedLatest(classifications: map<Id, Classification>, stats: seq<SpeciesStat>, i: int)
    requires 0 <= i < |stats|
    requires forall j :: i < j < |stats| ==> stats[j].species.id != stats[i].species.id
    ensures stats[i].species.id in Upserted(classifications, stats)
    ensures Upserted(classifications, stats)[stats[i].species.id] == stats[i].classification
  {
    if i < |stats| - 1 {
      var init := stats[..|stats| - 1];
      assert init[i] == stats[i];
      UpsertedLatest(classifications, init, i);
    }
  }

  /** A species the pass does not list keeps its stored classification. */
  lemma {:induction false} UpsertedElsewhere(classifications: map<Id, Classification>, stats: seq<SpeciesStat>, k: Id)
    requires k in classifications
    requires forall j :: 0 <= j < |stats| ==> stats[j].species.id != k
    ensures k in Upserted(classifications, stats) && Upserted(classifications, stats)[k] == classifications[k]
  {
    if stats != [] {
      var init := stats[..|stats| - 1];
      assert forall j :: 0 <= j < |init| ==> init[j] == stats[j];
      UpsertedElsewhere(classifications, init, k);
    }
  }

  function Counts(stats: seq<SpeciesStat>): (r: seq<nat>)
    ensures |r| == |stats|
    ensures forall i :: 0 <= i < |r| ==> r[i] == stats[i].observationCount
  {
    seq(|stats|, i requires 0 <= i < |stats| => stats[i].observationCount)
  }

  /** `reduce((sum, s) => sum + s.observationCount, 0)`. */
  function Sum(counts: seq<nat>): nat
  {
    if counts == [] then 0 else Sum(counts[..|counts| - 1]) + counts[|counts| - 1]
  }

  /** No count exceeds the sum, and the sum is zero only when every count
      is. */
  lemma {:induction false} SumBounds(counts: seq<nat>)
    ensures forall i :: 0 <= i < |counts| ==> counts[i] <= Sum(counts)
    ensures Sum(counts) == 0 <==> forall i :: 0 <= i < |counts| ==> counts[i] == 0
  {
    if counts != [] {
      SumBounds(counts[..|counts| - 1]);
    }
  }

  /** The `reduce` that finds the most observed species: a strictly larger
      count replaces the current best, so ties keep the earliest species,
      and with no observation at all there is none. */
  function MostObservedAt(counts: seq<nat>): (r: Option<nat>)
    ensures r.None? <==> forall i :: 0 <= i < |counts| ==> counts[i] == 0
    ensures r.Some? ==>
      && r.value < |counts|
      && counts[r.value] > 0
      && (forall i :: 0 <= i < |counts| ==> counts[i] <= counts[r.value])
      && (forall i :: 0 <= i < r.value ==> counts[i] < counts[r.value])
  {
    if counts == [] then None
    else
      var last := |counts| - 1;
      var best := MostObservedAt(counts[..last]);
      var bestCount := if best.None? then 0 else counts[best.value];
      if counts[last] > bestCount then Some(last) else best
  }

  /** `classification.family || 'Indéterminé'`. */
  function FamilyLabel(c: Classification): string
  {
    if c.family == "" then "Indéterminé" else c.family
  }

  function Families(stats: seq<SpeciesStat>): (r: seq<string>)
    ensures |r| == |stats|
    ensures forall i :: 0 <= i < |r| ==> r[i] == FamilyLabel(stats[i].classification)
  {
    seq(|stats|, i requires 0 <= i < |stats| => FamilyLabel(stats[i].classification))
  }

  /** The snapshot the pass writes for its per-species records. */
  function SnapshotOf(stats: seq<SpeciesStat>, speciesCount: nat, now: Time): Snapshot
  {
    var counts := Counts(stats);
    var total := Sum(counts);
    var average := if speciesCount > 0 then total as real / speciesCount as real else 0.0;
    var most := MostObservedAt(counts);
    Snapshot(speciesCount, total, average,
             if most.Some? then Some(stats[most.value].species.id) else None,
             if most.Some? then Some(stats[most.value].species.name) else None,
             if most.Some? then counts[most.value] else 0,
             TallyOf(Families(stats)), now)
  }

  /** The snapshot of a non-empty pass is consistent. */
  lemma SnapshotConsistent(stats: seq<SpeciesStat>, now: Time)
    requires stats != []
    ensures Consistent(SnapshotOf(stats, |stats|, now))
  {
    var counts := Counts(stats);
    var total := Sum(counts);
    var most := MostObservedAt(counts);
    var s := SnapshotOf(stats, |stats|, now);
    assert s.totalObservations == total;
    assert s.averageObservationsPerSpecies == total as real / |stats| as real;
    assert s.mostObservedSpeciesId.None? <==> most.None?;
    assert s.mostObservedSpeciesName.None? <==> most.None?;
    assert s.mostObservedSpeciesCount == if most.Some? then counts[most.value] else 0;
    assert s.familyDistribution == TallyOf(Families(stats));
    SumBounds(counts);
    TallyOfCounts(Families(stats));
  }

  /** The most observed species of a snapshot is listed in the pass, was
      observed at least as often as every species, and strictly more often
      than every species listed before it. */
  lemma SnapshotMostObserved(stats: seq<SpeciesStat>, now: Time)
    ensures var s := SnapshotOf(stats, |stats|, now);
      && (forall i :: 0 <= i < |stats| ==> stats[i].observationCount <= s.mostObservedSpeciesCount)
      && (s.mostObservedSpeciesId.Some? ==>
            exists m :: 0 <= m < |stats|
              && s.mostObservedSpeciesId == Some(stats[m].species.id)
              && s.mostObservedSpeciesName == Some(stats[m].species.name)
              && s.mostObservedSpeciesCount == stats[m].observationCount
              && forall i :: 0 <= i < m ==> stats[i].observationCount < stats[m].observationCount)
  {
    var counts := Counts(stats);
    var most := MostObservedAt(counts);
    if most.Some? {
      var m := most.value;
      assert counts[m] == stats[m].observationCount;
      assert forall i :: 0 <= i < |stats| ==> counts[i] == stats[i].observationCount;
    }
  }

  /** A species as reported by the statistics pass. */
  datatype SpeciesDetail = SpeciesDetail(
    speciesId: Id,
    speciesName: string,
    observationCount: nat,
    family: string,
    subSpecies: seq<string>,
    evolutionBranch: string,
    keywords: seq<string>)

  function Detail(s: SpeciesStat): SpeciesDetail
  {
    SpeciesDetail(s.species.id, s.species.name, s.observationCount, s.classification.family,
                  s.classification.subSpecies, s.classification.evolutionBranch, s.classification.keywords)
  }

  function Details(stats: seq<SpeciesStat>): (r: seq<SpeciesDetail>)
    ensures |r| == |stats|
    ensures forall i :: 0 <= i < |r| ==> r[i] == Detail(stats[i])
  {
    seq(|stats|, i requires 0 <= i < |stats| => Detail(stats[i]))
  }

  datatype StatsReport = StatsReport(stats: Snapshot, speciesDetails: seq<SpeciesDetail>)

  /** One more species classified. */
  lemma StatsStep(species: seq<FetchedSpecies>, fetchObservations: Id -> Option<seq<FetchedObservation>>, now: Time, i: int)
    requires 0 <= i < |species|
    ensures StatsOf(species[..i + 1], fetchObservations, now)
      == StatsOf(species[..i], fetchObservations, now) + [SpeciesStatOf(species[i], fetchObservations, now)]
  {
    assert species[..i + 1][..i] == species[..i];
  }

  /** Upserting one more record. */
  lemma UpsertedStep(classifications: map<Id, Classification>, stats: seq<SpeciesStat>, stat: SpeciesStat)
    ensures Upserted(classifications, stats + [stat])
      == Upserted(classifications, stats)[stat.species.id := stat.classification]
  {
    assert (stats + [stat])[..|stats|] == stats;
  }

  /** The loop of `generateTaxonomyStats` that fetches the observations of
      each species, in list order, and classifies it. */
  method ClassifyAll(db: TaxonomyDb, species: seq<FetchedSpecies>,
                     fetchObservations: Id -> Option<seq<FetchedObservation>>, now: Time)
    returns (speciesStats: seq<SpeciesStat>)
    requires db.Valid()
    modifies db
    ensures db.Valid()
    ensures speciesStats == StatsOf(species, fetchObservations, now)
    ensures db.classifications == Upserted(old(db.classifications), speciesStats)
    ensures db.stats == old(db.stats)
  {
    speciesStats := [];
    for i := 0 to |species|
      invariant db.Valid()
      invariant speciesStats == StatsOf(species[..i], fetchObservations, now)
      invariant db.classifications == Upserted(old(db.classifications), speciesStats)
      invariant db.stats == old(db.stats)
    {
      var observations := ObservationsOrEmpty(fetchObservations(species[i].id));
      var classification := ClassifySpecies(db, species[i], observations, now);
      var stat := SpeciesStat(species[i], observations, |observations|, classification);
      StatsStep(species, fetchObservations, now, i);
      UpsertedStep(old(db.classifications), speciesStats, stat);
      speciesStats := speciesStats + [stat];
    }
    assert species[..|species|] == species;
  }

  /** One more family counted. */
  lemma FamiliesStep(stats: seq<SpeciesStat>, i: int)
    requires 0 <= i < |stats|
    ensures TallyOf(Families(stats[..i + 1]))
      == Bump(TallyOf(Families(stats[..i])), FamilyLabel(stats[i].classification))
  {
    var before := Families(stats[..i]);
    assert Families(stats[..i + 1]) == before + [FamilyLabel(stats[i].classification)];
    assert (before + [FamilyLabel(stats[i].classification)])[..i] == before;
  }

  /** The `familyDistribution` loop: one count per family label. */
  method CountFamilies(stats: seq<SpeciesStat>) returns (familyDistribution: seq<Entry>)
    ensures familyDistribution == TallyOf(Families(stats))
  {
    familyDistribution := [];
    for i := 0 to |stats|
      invariant familyDistribution == TallyOf(Families(stats[..i]))
    {
      FamiliesStep(stats, i);
      familyDistribution := Bump(familyDistribution, FamilyLabel(stats[i].classification));
    }
    assert stats[..|stats|] == stats;
  }

  /** The totals, the average, the most observed species and the family
      distribution of a pass. */
  method Summarize(speciesStats: seq<SpeciesStat>, now: Time) returns (snapshot: Snapshot)
    ensures snapshot == SnapshotOf(speciesStats, |speciesStats|, now)
  {
    var counts := Counts(speciesStats);
    var totalObservations := Sum(counts);
    var averageObservationsPerSpecies :=
      if |speciesStats| > 0 then totalObservations as real / |speciesStats| as real else 0.0;
    var mostObserved := MostObservedAt(counts);
    var familyDistribution := CountFamilies(speciesStats);
    snapshot := Snapshot(
      |speciesStats|, totalObservations, averageObservationsPerSpecies,
      if mostObserved.Some? then Some(speciesStats[mostObserved.value].species.id) else None,
      if mostObserved.Some? then Some(speciesStats[mostObserved.value].species.name) else None,
      if mostObserved.Some? then counts[mostObserved.value] else 0,
      familyDistribution, now);
  }

  /** `generateTaxonomyStats`: fails when the species list cannot be
      fetched or is empty, leaving the tables as they were; otherwise
      classifies every species in list order and replaces the stored
      snapshot with exactly one new one. */
  method GenerateTaxonomyStats(db: TaxonomyDb, fetchedSpecies: Result<seq<FetchedSpecies>, string>,
                               fetchObservations: Id -> Option<seq<FetchedObservation>>, now: Time)
    returns (r: Result<StatsReport, TaxonomyError>)
    requires db.Valid()
    modifies db
    ensures db.Valid()
    ensures fetchedSpecies.Err? ==> r == Err(SpeciesFetchFailed(fetchedSpecies.error))
    ensures fetchedSpecies == Ok([]) ==> r == Err(NoSpeciesFound)
    ensures r.Ok? <==> fetchedSpecies.Ok? && fetchedSpecies.value != []
    ensures r.Err? ==> db.classifications == old(db.classifications) && db.stats == old(db.stats)
    ensures r.Ok? ==>
      var stats := StatsOf(fetchedSpecies.value, fetchObservations, now);
      && r.value == StatsReport(SnapshotOf(stats, |stats|, now), Details(stats))
      && db.stats == [r.value.stats]
      && db.classifications == Upserted(old(db.classifications), stats)
  {
    if fetchedSpecies.Err? {
      return Err(SpeciesFetchFailed(fetchedSpecies.error));
    }
    var species := fetchedSpecies.value;
    if |species| == 0 {
      return Err(NoSpeciesFound);
    }
    var speciesStats := ClassifyAll(db, species, fetchObservations, now);
    var snapshot := Summarize(speciesStats, now);
    SnapshotConsistent(speciesStats, now);
    // `deleteMany` then `create`: the new snapshot is the only one left.
    db.stats := [snapshot];
    r := Ok(StatsReport(snapshot, Details(speciesStats)));
  }

  /** The stored statistics and every stored classification. */
  datatype Overview = Overview(globalStats: Snapshot, classifications: set<Classification>)

  /** `getTaxonomyStats`: fails when no snapshot has been generated. */
  function GetTaxonomyStats(db: TaxonomyDb): (r: Result<Overview, TaxonomyError>)
    reads db
    requires db.Valid()
    ensures r.Err? <==> db.stats == []
    ensures r.Err? ==> r.error == NoStatsAvailable
    ensures r.Ok? ==>
      && r.value.globalStats in db.stats
      && Consistent(r.value.globalStats)
      && (forall c :: c in r.value.classifications <==> c in db.classifications.Values)
  {
    if db.stats == [] then Err(NoStatsAvailable)
    else Ok(Overview(db.stats[0], db.classifications.Values))
  }

  /** `getSpeciesClassification`: the stored classification of a species. */
  function GetSpeciesClassification(db: TaxonomyDb, speciesId: Id): (r: Result<Classification, TaxonomyError>)
    reads db
    requires db.Valid()
    ensures speciesId !in db.classifications <==> r == Err(ClassificationNotFound)
    ensures r.Ok? ==> r.value.speciesId == speciesId && r.value == db.classifications[speciesId]
  {
    if speciesId in db.classifications then Ok(db.classifications[speciesId]) else Err(ClassificationNotFound)
  }
}
