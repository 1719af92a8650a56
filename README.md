# Deep-sea observation services: a Dafny model

The system catalogues deep-sea species and the observations citizens submit
about them. It runs as three services:

- **Observation service.** Holds species, observations and an append-only
  observation history. Authors submit observations at status PENDING, with a
  five-minute cooldown per author and species. Experts validate or reject
  them, but never their own. Administrators soft-delete observations and
  restore them to PENDING, and each such step writes one history row. Read
  queries list observations, species and the history. Every route sits
  behind a bearer-token guard, and some also need the EXPERT or ADMIN role.
- **Auth service.** Keeps the account directory. Emails and user names are
  unique. Roles are USER, EXPERT and ADMIN. A reputation update promotes a
  USER to EXPERT once the reputation reaches 10. Login signs a token.
- **Taxonomy service.** Fetches every species and its observations from the
  observation service. It extracts the ten most frequent keywords from the
  observation descriptions and classifies each species into a family with a
  fixed rule table. It upserts one classification per species and replaces
  the single stored statistics snapshot. A snapshot younger than one hour is
  served from the cache.

The model is written as follows:

- **Databases are classes.** The observation database
  (`ObservationStore.Database`), the account directory
  (`AuthService.UserDb`) and the taxonomy tables
  (`TaxonomyService.TaxonomyDb`) each hold their tables as `map`/`seq`
  fields.
- **Each class has a `Valid()` invariant.** It covers dense ids, unique
  names and emails, well-formed deletion fields, and a deleted observation
  explained by the last history row about it, a DELETED row by the same
  administrator. For the taxonomy tables it
  covers a consistent snapshot.
- **Service operations are methods on those objects.** Each method states
  its error cases, its result and the whole new state.
- **Queries and pure helpers are functions.**
- **Collaborators are parameters.** Hashing, password comparison, token
  signing and verification, the clock and the two network fetches are
  passed in as function or value parameters.

## Model

| member | source | states |
|---|---|---|
| Common.ParseRole | auth-service/src/services/auth.service.js:16-19 | accepts exactly the names USER, EXPERT, ADMIN, and the role it gives back has that name |
| Text.Lower | taxonomy-service/src/services/taxonomy.service.js:79 | lower-casing keeps the length and maps each character through the per-character lowering |
| Text.LowerChar | taxonomy-service/src/services/taxonomy.service.js:57 | a lowered character is never upper-case, a non-upper-case one is unchanged, and white space stays white space |
| Text.ContainsIff | taxonomy-service/src/services/taxonomy.service.js:82-94 | the left-to-right `includes` scan holds exactly when the fragment occurs at some position |
| Text.Split | observation-service/src/middlewares/auth.middleware.js:6 | splitting on one character gives at least one piece, and no piece contains the separator |
| Text.JoinSplit | observation-service/src/middlewares/auth.middleware.js:6 | joining the pieces of a split with the separator gives the original string back |
| Ordering.SortDesc | observation-service/src/services/admin.service.js:114 | `orderBy desc` yields a non-increasing sequence that is a permutation of its input |
| Ordering.Filter | observation-service/src/services/admin.service.js:143 | `filter` keeps exactly the elements satisfying the predicate, each as often as in the input, and drops every other |
| Ordering.FilterAppend | observation-service/src/services/admin.service.js:143 | filtering a concatenation is filtering each part in turn, so the kept elements keep their order |
| Ordering.Take | taxonomy-service/src/services/taxonomy.service.js:71 | `slice(0, n)` is the prefix of length min(n, length) |
| Tally.Bump | taxonomy-service/src/services/taxonomy.service.js:63 | counting a word adds one to its count and to the total, leaves every other count alone, and appends a new key last |
| Tally.TallyOfCounts | taxonomy-service/src/services/taxonomy.service.js:52-66 | the counting object holds each distinct word once, its count is the number of occurrences, and the counts sum to the number of words |
| Tally.TallyFromAppend | taxonomy-service/src/services/taxonomy.service.js:54-66 | counting two word lists one after the other is counting their concatenation |
| Tally.OccurrencesIsMultiplicity | taxonomy-service/src/services/taxonomy.service.js:62-64 | the occurrences counted for a word are its multiplicity among the words |
| ObservationStore.LastEntryFor | observation-service/src/services/admin.service.js:112-115 | nothing iff no history row concerns the observation; otherwise a row about it with no later row about it |
| ObservationStore.UpdateAndLog | observation-service/src/services/admin.service.js:25-47 | rewriting one observation and appending one consistent row about it keeps every table invariant |
| ObservationStore.UpdateRow | observation-service/src/services/observation.service.js:74-84 | rewriting one observation without a history row keeps the invariants when the row stays well-formed and audited |
| ObservationStore.Database.ObservationRows | observation-service/src/services/admin.service.js:201-202 | an unordered `findMany` lists every observation exactly once |
| ObservationStore.Database.SpeciesRows | observation-service/src/services/species.service.js:50 | an unordered `findMany` lists every species exactly once |
| ObservationStore.ObservationsWhere | observation-service/src/services/observation.service.js:47-50 | a filtered query lists exactly the matching observations, each once, newest first |
| ObservationStore.HistoryOf | observation-service/src/services/admin.service.js:112-115 | the history of one observation is exactly its rows, each as often as in the history, newest first |
| ObservationService.CreateObservation | observation-service/src/services/observation.service.js:4-44 | unknown species fails first, then a same-author same-species submission in the last five minutes; success iff neither, adding one fresh PENDING row with nothing else changed |
| ObservationService.Moderate | observation-service/src/services/observation.service.js:53-123 | unknown, then non-PENDING, then own observation fail in that order; success iff none applies; only that row changes, getting the outcome, the moderator and the time |
| ObservationService.ValidateObservation | observation-service/src/services/observation.service.js:53-87 | the same guards; success sets VALIDATED with validator and time, and the history is untouched |
| ObservationService.RejectObservation | observation-service/src/services/observation.service.js:89-123 | the same guards with the rejection message; success sets REJECTED with validator and time |
| ObservationService.ObservationsBySpecies | observation-service/src/services/observation.service.js:46-51 | exactly the observations of the species, deleted ones included, each once, newest first |
| AdminService.RestoreUndoesSoftDelete | observation-service/src/services/admin.service.js:25-34 | restoring a soft-deleted observation gives the original back at PENDING, with moderation fields intact |
| AdminService.SoftDeleteObservation | observation-service/src/services/admin.service.js:8-50 | unknown or already deleted fails with the tables unchanged; otherwise the row becomes DELETED with admin, time and reason or default, and exactly one DELETED row with the previous status is appended |
| AdminService.RestoreObservation | observation-service/src/services/admin.service.js:56-98 | unknown or not deleted fails with the tables unchanged; otherwise the row returns to PENDING with cleared deletion fields, and exactly one DELETED→PENDING row is appended |
| AdminService.SoftDeleteThenRestore | observation-service/src/services/admin.service.js:8-98 | delete followed by restore returns the observation at PENDING without deletion fields and appends exactly the two rows, in order |
| AdminService.GetObservationHistory | observation-service/src/services/admin.service.js:103-121 | fails iff the observation is unknown; otherwise the observation and exactly its history rows, each once, newest first |
| AdminService.StatusesPartition | observation-service/src/services/admin.service.js:141-147 | the four per-status counts add up to the number of observations |
| AdminService.CountStatusIsFilterLength | observation-service/src/services/admin.service.js:143-146 | each per-status count is the length of the list `filter` keeps for that status |
| AdminService.Stats | observation-service/src/services/admin.service.js:141-147 | total is the length, each status count is the number of observations with that status, and the four add up to the total |
| AdminService.WithHistory | observation-service/src/services/admin.service.js:131-136 | each listed observation carries exactly its own history, newest first, in the order given |
| AdminService.Report | observation-service/src/services/admin.service.js:127-154 | a report lists exactly the selected observations once each, newest first, each with its history; each status count counts the listed observations with that status, and the counts add up |
| AdminService.GetUserHistory | observation-service/src/services/admin.service.js:127-154 | such a report over the observations authored by the user |
| AdminService.GetSpeciesHistory | observation-service/src/services/admin.service.js:160-195 | fails iff the species is unknown; otherwise the species and such a report over its observations |
| AdminService.DeletedRows | observation-service/src/services/admin.service.js:203-209 | the rows with status DELETED, each once, all with a deletion time, most recently deleted first |
| AdminService.GetDeletedObservations | observation-service/src/services/admin.service.js:200-211 | exactly the deleted observations, once each, all with a deletion time, most recently deleted first, each with exactly its own history, newest first |
| SpeciesService.CreateSpecies | observation-service/src/services/species.service.js:4-30 | a taken name fails first, then a danger level outside [1, 5]; success iff neither, adding one fresh row |
| SpeciesService.GetSpeciesById | observation-service/src/services/species.service.js:32-47 | fails iff the species is unknown; otherwise the species with exactly its observations, each once, newest first |
| SpeciesService.WithValidated | observation-service/src/services/species.service.js:51-55 | each species carries exactly its VALIDATED observations, each as often as in the table listing |
| SpeciesService.GetAllSpecies | observation-service/src/services/species.service.js:49-58 | every species once, newest first, each with exactly its VALIDATED observations, each once |
| AuthService.Public | auth-service/src/services/auth.service.js:32-33 | the returned account has every column of the stored one except the password |
| AuthService.PromotedRole | auth-service/src/services/auth.service.js:81-83 | the result is EXPERT iff already EXPERT or a USER reaching 10, USER iff a USER below 10; other roles are kept |
| AuthService.NoDemotion | auth-service/src/services/auth.service.js:77-90 | no series of reputation changes lowers a role, and EXPERT and ADMIN never change |
| AuthService.Register | auth-service/src/services/auth.service.js:8-34 | a taken email fails first, then a taken user name, then an invalid role (omitted means USER); on success one account is added with the hashed password, reputation 0, and returned without its password |
| AuthService.Login | auth-service/src/services/auth.service.js:36-51 | every failure is the single credentials error; success iff some account has the email and a matching password; the token signs that account's claims |
| AuthService.GetMe | auth-service/src/services/auth.service.js:53-58 | fails iff the account is missing; otherwise it is returned without its password |
| AuthService.GetAllUsers | auth-service/src/services/auth.service.js:60-64 | every account exactly once, without passwords |
| AuthService.UpdateUserRole | auth-service/src/services/auth.service.js:66-75 | an invalid role name fails before the lookup; success iff valid and the account exists, changing its role only |
| AuthService.UpdateReputation | auth-service/src/services/auth.service.js:77-90 | fails iff the account is missing; otherwise reputation += change and the role follows PromotedRole, nothing else changing |
| AuthService.GetUserById | auth-service/src/services/auth.service.js:92-97 | nothing iff the account is missing, else the account without its password |
| AuthController.EmailCheckIff | auth-service/src/controllers/auth.controller.js:12 | the scanning email check accepts exactly what the pattern `^[^\s@]+@[^\s@]+\.[^\s@]+$` matches |
| AuthController.ScanToPattern | auth-service/src/controllers/auth.controller.js:12 | an email the scan accepts has a split as the pattern requires |
| AuthController.PatternToScan | auth-service/src/controllers/auth.controller.js:12 | an email the pattern matches passes the scan |
| AuthController.CheckRegister | auth-service/src/controllers/auth.controller.js:9-17 | missing fields, then a bad email, then a short password, each reported iff its predecessors pass and it fails |
| AuthController.Register | auth-service/src/controllers/auth.controller.js:4-25 | an input error answers 400 without touching the directory; 201 iff the input passes and the service succeeds, with the service's new account stored and returned without its password; a taken email, then a taken user name, answer 400 with the service's error, and every failure answers 400 |
| AuthController.Login | auth-service/src/controllers/auth.controller.js:27-38 | a missing email or password answers 400; other failures answer 401 with the credentials error; 200 iff the credentials match |
| AuthController.UpdateUserRole | auth-service/src/controllers/auth.controller.js:58-68 | a missing or empty role answers 400 before the service; an invalid role name answers its error; success iff the role is valid and the account exists, changing that account's role only |
| AuthController.UpdateReputation | auth-service/src/controllers/auth.controller.js:70-82 | only an absent change answers the missing-change 400; a missing account answers its error; success iff present and the account exists, adding the change and promoting as the service does, nothing else changing |
| AuthMiddleware.ExtractToken | observation-service/src/middlewares/auth.middleware.js:5-6 | a non-empty second piece of the split on spaces is the token; any token is the non-empty, space-free run between the first space and the next space or the end |
| AuthMiddleware.SecondPiece | observation-service/src/middlewares/auth.middleware.js:6 | the second piece of a split on spaces starts right after the first space and ends at the next one |
| AuthMiddleware.BearerHeaderYieldsToken | observation-service/src/middlewares/auth.middleware.js:5-8 | `Bearer <t>` yields exactly `t` for a non-empty token without spaces |
| AuthMiddleware.AuthenticateToken | observation-service/src/middlewares/auth.middleware.js:4-19 | no token answers 401, a failed verification answers 403, both leaving the request alone; it passes on iff both succeed, with the claims attached |
| AuthMiddleware.RequireExpert | observation-service/src/middlewares/auth.middleware.js:21-26 | passes iff the role is EXPERT or ADMIN; every other role answers 403 |
| TaxonomyKeywords.Clean | taxonomy-service/src/services/taxonomy.service.js:58 | exactly the word characters, white space and the listed accented letters survive, each as often as it occurs |
| TaxonomyKeywords.RunsArePieces | taxonomy-service/src/services/taxonomy.service.js:59 | `split(/\s+/)` followed by the length filter keeps the same words as cutting at every white-space character and dropping the empty pieces: the runs are exactly the non-empty pieces, in order |
| TaxonomyKeywords.PiecesRun | taxonomy-service/src/services/taxonomy.service.js:59 | the first piece of a string starting with a non-space is its first maximal run, followed by the pieces after the space ending it |
| TaxonomyKeywords.DescriptionWords | taxonomy-service/src/services/taxonomy.service.js:56-60 | every word is lower-case, longer than three characters, not a stop word, and made of kept characters; each candidate run of the cleaned description occurs as often as there |
| TaxonomyKeywords.AllWordsAppend | taxonomy-service/src/services/taxonomy.service.js:54-66 | the words of two observation lists are those of the first followed by those of the second, so with AllWordsOne every observation contributes its own words, in order |
| TaxonomyKeywords.AllWordsOne | taxonomy-service/src/services/taxonomy.service.js:54-60 | one observation contributes exactly the candidate words of its description, none without one |
| TaxonomyKeywords.Keywords | taxonomy-service/src/services/taxonomy.service.js:42-43 | an absent or empty observation list gives no keywords |
| TaxonomyKeywords.CountWords | taxonomy-service/src/services/taxonomy.service.js:62-64 | the counting loop computes the tally of the words added to the counter |
| TaxonomyKeywords.ExtractKeywords | taxonomy-service/src/services/taxonomy.service.js:42-73 | the loop over observations computes the keyword function |
| TaxonomyKeywords.RankedCounts | taxonomy-service/src/services/taxonomy.service.js:69-70 | the sorted entries hold each word once, with its number of occurrences |
| TaxonomyKeywords.KeywordsRanked | taxonomy-service/src/services/taxonomy.service.js:68-72 | at most ten distinct valid words occurring in the descriptions, by non-increasing frequency |
| TaxonomyKeywords.KeywordsAreTopTen | taxonomy-service/src/services/taxonomy.service.js:68-72 | a word left out means ten were kept, none occurring less often than it |
| TaxonomyService.GenerateFamily | taxonomy-service/src/services/taxonomy.service.js:78-99 | always one of the six family names, and any name containing "kraken" is Cephalopoda Gigantea |
| TaxonomyService.FamilyFollowsRules | taxonomy-service/src/services/taxonomy.service.js:78-99 | the classifier equals the rule table read top to bottom, with the default family when no rule matches |
| TaxonomyService.GenerateSubSpecies | taxonomy-service/src/services/taxonomy.service.js:104-115 | none up to 10 observations, "var. profundis" above 10, then "var. giganteus" as well above 20 |
| TaxonomyService.DetermineEvolutionBranch | taxonomy-service/src/services/taxonomy.service.js:120-130 | a known family gets its branch; the undetermined branch iff the family is unknown, which among the classifier's outputs is only the default family |
| TaxonomyService.ClassifySpecies | taxonomy-service/src/services/taxonomy.service.js:135-161 | the classification of the species is inserted or replaces the stored one for that id, and nothing else changes |
| TaxonomyService.ObservationsOrEmpty | taxonomy-service/src/services/taxonomy.service.js:26-37 | a failed observation fetch counts as no observations |
| TaxonomyService.StatsOf | taxonomy-service/src/services/taxonomy.service.js:176-188 | one record per species |
| TaxonomyService.StatsOfAt | taxonomy-service/src/services/taxonomy.service.js:178-188 | the i-th record is the i-th species with its fetched observations and their classification |
| TaxonomyService.FailedFetchCountsZero | taxonomy-service/src/services/taxonomy.service.js:33-36 | a species whose fetch fails still gets a record, with zero observations, no keywords and no sub-species |
| TaxonomyService.UpsertedKeys | taxonomy-service/src/services/taxonomy.service.js:142-160 | after the upserts the table holds the old species plus those of the pass, and no others |
| TaxonomyService.UpsertedLatest | taxonomy-service/src/services/taxonomy.service.js:142-160 | a species of the pass stores the classification of its last occurrence in the list |
| TaxonomyService.UpsertedElsewhere | taxonomy-service/src/services/taxonomy.service.js:142-160 | a species absent from the pass keeps its stored classification |
| TaxonomyService.SumBounds | taxonomy-service/src/services/taxonomy.service.js:191 | no species count exceeds the total, and the total is 0 iff every count is |
| TaxonomyService.MostObservedAt | taxonomy-service/src/services/taxonomy.service.js:197-199 | none iff all counts are 0; otherwise a positive maximal count strictly above every earlier one, so ties keep the first species |
| TaxonomyService.Families | taxonomy-service/src/services/taxonomy.service.js:203-204 | one family label per record, "Indéterminé" for an empty family |
| TaxonomyService.SnapshotConsistent | taxonomy-service/src/services/taxonomy.service.js:190-220 | a non-empty pass writes a consistent snapshot (see below) |
| TaxonomyService.SnapshotMostObserved | taxonomy-service/src/services/taxonomy.service.js:196-217 | the recorded most-observed count is at least every species' count; a recorded species is in the pass with that count and is the earliest such |
| TaxonomyService.Details | taxonomy-service/src/services/taxonomy.service.js:224-232 | one detail per record, in order, copied from its species and classification |
| TaxonomyService.ClassifyAll | taxonomy-service/src/services/taxonomy.service.js:176-188 | the loop yields exactly the per-species records and leaves the table upserted with each, in order |
| TaxonomyService.CountFamilies | taxonomy-service/src/services/taxonomy.service.js:202-206 | the loop yields the tally of the family labels |
| TaxonomyService.Summarize | taxonomy-service/src/services/taxonomy.service.js:190-220 | the totals, average, most-observed species and distribution are those of the snapshot function |
| TaxonomyService.GenerateTaxonomyStats | taxonomy-service/src/services/taxonomy.service.js:166-238 | a failed or empty species list fails with the tables unchanged; success iff non-empty; then the snapshot is the only stored one, the classifications are upserted, and the report lists every species |
| TaxonomyService.GetTaxonomyStats | taxonomy-service/src/services/taxonomy.service.js:305-322 | fails iff no snapshot is stored; otherwise a stored, consistent snapshot with exactly the stored classifications |
| TaxonomyService.GetSpeciesClassification | taxonomy-service/src/services/taxonomy.service.js:327-337 | fails iff no classification is stored for the species, else returns that one |
| TaxonomyController.OutgoingAuthorization | taxonomy-service/src/services/taxonomy.service.js:15 | the outgoing header is `Bearer ` followed by exactly the token |
| TaxonomyController.AsWrittenForwardLosesToken | taxonomy-service/src/controllers/taxonomy.controller.js:10 | as written, the observation service extracts the word `Bearer` as the token, not the caller's |
| TaxonomyController.ForwardKeepsToken | taxonomy-service/src/controllers/taxonomy.controller.js:10 | forwarding the extracted token makes the observation service extract the caller's own token |
| TaxonomyController.Regenerate | taxonomy-service/src/controllers/taxonomy.controller.js:22-27 | one statistics pass over the species fetched with the caller's token, with the outcomes above |
| TaxonomyController.GetStats | taxonomy-service/src/controllers/taxonomy.controller.js:8-36 | a snapshot under one hour old is served with the stored classifications and nothing changes; otherwise success iff the species list is non-empty, replacing the snapshot, and failure answers 500 with the tables unchanged |
| TaxonomyController.GenerateStats | taxonomy-service/src/controllers/taxonomy.controller.js:42-54 | always regenerates: 200 with the new report, or 500 with the tables unchanged |
| TaxonomyController.GetSpeciesClassification | taxonomy-service/src/controllers/taxonomy.controller.js:60-72 | 404 iff the species has no classification, else 200 with it |

A consistent snapshot satisfies all of these:

- it counts at least one species;
- its family distribution sums to the species count;
- its average is the total divided by the species count;
- the most-observed count is at most the total;
- the most-observed id, name and count are absent together, exactly when
  the total is 0.

The code and the wider design disagree in several places. The model follows
the code:

- Creating, validating and rejecting an observation write no history row.
  Only soft deletion and restoration do.
- No reputation change is sent on validation or rejection.
- No rarity score exists.
- The per-species observation listing includes deleted observations.
- The observation update and its history row are two separate writes in the
  code. Here they are one method, so the model does not show a crash
  between the two writes.

## Left out

- Password hashing and comparison, token signing and verification are function parameters; their cryptography is not modelled.
- The two HTTP fetches of the taxonomy service are inputs: the species list is a `Result`, the per-species fetch a function to `Option`. Retries see the same answers, and the `Erreur …` wrapping of the messages is reduced to the error kind.
- The clock is a `now` parameter.
- `softDeleteObservation` reads the clock twice: `deletedAt: new Date()` (observation-service/src/services/admin.service.js:30), and the database fills in the history row's `timestamp` at insert time (admin.service.js:37-47). The model passes one `now` to both. The table invariant does not claim the two times are equal; `SoftDeleteObservation`'s contract states both are `now`, which holds only in the model.
- Concurrency and the check-then-act races are not modelled: every operation runs alone. This covers the cooldown read followed by the insert, and two passes upserting at once.
- Ids are natural numbers drawn from per-table counters rather than database-generated strings. Request-parameter coercion from strings is not modelled.
- JavaScript value coercions are not modelled. This covers a `reputationChange` sent as a string (which `+` would concatenate), a `null` role, and non-string body fields.
- String lengths count Dafny characters, not UTF-16 code units.
- `toLowerCase` is modelled for ASCII, Latin-1, U+0178 and U+212A only; other scripts and multi-character lowerings such as U+0130 are not.
- `Object.entries` lists integer-like keys first in numeric order. Keys colliding with `Object.prototype` members behave oddly in the counting objects. Both are not modelled, and the tallies keep plain insertion order.
- TaxonomyService.GetTaxonomyStats: returns the classifications as a set, not ordered by species name as the query asks.
- AuthService.GetAllUsers: lists accounts in id order; the source's `findMany` gives no order.
- The `include: { species: true }` join (observation-service/src/services/observation.service.js:38-40, 81-83, 117-119; observation-service/src/services/admin.service.js:12, 33, 60, 81, 131-132, 203-204) is not carried: results hold the observation row with its species id, not the species record. The join adds no filtering, and the species is in the species table under that id.
- SpeciesService.GetAllSpecies: the VALIDATED observations attached to each species are in id order; the source's `include` gives no order.
- The `updatedAt`/`createdAt` columns the database fills on an upsert are reduced to the pass time.
- The second `getStats` in taxonomy-service/src/services/taxonomy.service.js:243-300 is not part of this model. Nothing calls it, and it uses `generateSubfamily` and `generateEvolutionBranch`, which the service does not define.
- The controllers getMe, getAllUsers and getUserById (auth-service/src/controllers/auth.controller.js:40-56, 84-93) are not part of this model. They only forward to the service functions modelled above.
- Route wiring and server setup are not part of this model.

## Findings

| source | as written | input that shows it | evidently intended | confidence | as-written member | corrected member |
|---|---|---|---|---|---|---|
| taxonomy-service/src/controllers/taxonomy.controller.js:10 | the controller passes the whole `Authorization` header as the token, and the fetches (taxonomy-service/src/services/taxonomy.service.js:15, 30) prefix `Bearer ` again, sending `Bearer Bearer <t>` | any request with header `Bearer abc`: the observation service reads `Bearer` as the token | forward only the caller's token, so that the observation service verifies it | not executed | TaxonomyController.AsWrittenForwardLosesToken | TaxonomyController.ForwardKeepsToken |

The rest of the model uses the corrected forwarding.
