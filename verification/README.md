# Verified models of the fraud-detection and spending services

This project models the self-contained algorithms and state machines of the repository in Dafny and proves what they
keep over whole runs. Nothing here replaces the services: HTTP routing, database sessions, Redis connections and the
machine-learning libraries stay outside, and only the tables, maps and numbers they act on are modelled.

Floating-point numbers are exact reals; display rounding is dropped. SHA-256 and MD5 digests, the ROC AUC score, model
predictions, random masks, latency jitter and clock readings are parameters, so every statement holds for all of them.

## How it is organised

Each component of the repository has one module.

| module | component |
|---|---|
| `FederatedAveraging`, `SecureAggregation`, `Contribution` | federated-learning arithmetic, `fds_scripts/federated_sim.py` |
| `PolicyParser`, `BloomFilter` | policy evaluator and attribute filter, `fds_scripts/consortium_sharing_sim.py` |
| `EdgeApproval` | tiered approval on edge nodes, `fds_scripts/mec_simulation.py` |
| `RateLimiter`, `ChiSquare` | request limiter and A/B statistic of the fraud service |
| `AbacEngine`, `Masking`, `ThreatCombination` | access decision, response masking and threat-feed score of the fraud service |
| `AuditChain` | audit log and its retention, backend |
| `EducationStore`, `EducationTables` | education steps with leaderboard, and what the tables hold after any run, backend |
| `SpendProfile` | spending aggregates, backend |
| `ChallengeStore`, `AlertDedup` | one-time FIDO2 challenges, alert suppression, backend |
| `Sums`, `Products`, `Numbers`, `Options` | finite sums and products, Python's `int`, `min`, `max` and `None` |

A component that updates state in place is a class. Each of its methods is proved equal to one step of a function on
values, and the lemmas about whole runs are about sequences of such steps. Loops of the source are loops here, proved
against recursive definitions; the definitions are then tied to independent characterisations.

## Where the code does less than is said of it

* The pairwise masks of secure aggregation are documented to cancel. They leave the diagonal masks, which are drawn like
  the others, and every pair mask times the difference of the two weights. They cancel for all draws only when no client
  weighs anything, so no convex weights cancel them; equal weights alone leave only the diagonal ones
  (`SecureAggregation.MaskResidue`, `SecureAggregation.CancelsIffWeightless`,
  `SecureAggregation.ConvexWeightsNeverCancel`, `SecureAggregation.PairsCancelIffEqualWeights`).
* A user who completes a challenge whose badge is already owned keeps a stale completed-challenge count on the
  leaderboard, until the next badge or quiz score; over whole runs the lag is counted exactly
  (`EducationStore.CountCurrentIffNewBadge`, `EducationStore.RunLagsBy`, `EducationStore.RunCountCurrentIff`,
  `EducationStore.SecondCompletionNotCounted`).
* Without a monotone clock the audit chain verifies exactly when the indices of the remaining rows have no gap. A purge
  that deletes a row between retained ones opens such a gap, which one backward step of the clock makes possible; a later
  purge can close it again (`AuditChain.RunVerifiesIff`, `AuditChain.NextPurgeVerifiesIff`,
  `AuditChain.ClockStepBreaksChain`, `AuditChain.NextPurgeRepairs`).
* Each stored challenge is handed out at most once, but after a Redis outage a pop can return an older challenge of the
  same key, and a second pop the newer one (`ChallengeStore.RunPopReturnsLatestIff`, `ChallengeStore.SecondPopIff`,
  `ChallengeStore.OutageReturnsOlder`).
* A rate limit that is not positive makes every limited request fail (`RateLimiter.NonPositiveLimitFails`).
* The reported peak hour and top category depend on the order of arrival exactly when the busiest hour, or the largest
  category, is tied (`SpendProfile.PeakOrderIndependentIff`, `SpendProfile.TopOrderIndependentIff`).
* The policy evaluator accepts groups that are never closed and ignores whatever follows the first complete policy
  (`PolicyParser.ParseOrIff`, `PolicyParser.PolicyMatchIff`, `PolicyParser.SlackInputs`).
* Resetting a user's alerts can also forget those of another user, whose alert is then sent again too early. Over all
  runs this happens exactly when one name continues the other with the separator (`AlertDedup.ResetReachesIff`,
  `AlertDedup.ResetResendsIff`, `AlertDedup.ResetForgetsOther`).
* The first advance in a course only creates its row, so a course of one step takes two advances to complete
  (`EducationStore.CourseCompletedIff`).
* Under custom policies automatic approval can bypass the MFA amount and the risk threshold
  (`EdgeApproval.CustomPolicyBypasses`); the exact conditions are `EdgeApproval.MfaRespectedIff` and
  `EdgeApproval.RiskRespectedIff`. The simulation's "cloud only" processor, given an empty node list, still works on the
  default edge nodes (`EdgeApproval.CloudOnlyIff`).
* For a denied decision the recursive masking returns the payload untouched while the row-wise form returns nothing
  (`Masking.DeniedFormsAgreeIff`).

## Model

| member | source | states |
|---|---|---|
| FederatedAveraging.EffectiveWeights | fds_scripts/federated_sim.py:134-135 | without weights every client weighs the n-th part of one; given weights are used as they are |
| FederatedAveraging.DefaultWeightsConvex | fds_scripts/federated_sim.py:134-135 | the default weights are equal, positive and sum to one |
| FederatedAveraging.FedAvgPredictProba | fds_scripts/federated_sim.py:124-142 | every sample's prediction is the weighted sum over the clients that have a weight, also when the weight list is shorter or longer than the client list |
| FederatedAveraging.MixPicks | fds_scripts/federated_sim.py:137-140 | a client that alone has a weight contributes that weight times its prediction |
| FederatedAveraging.MixAdds | fds_scripts/federated_sim.py:137-140 | the weighted sum is additive in the weights |
| FederatedAveraging.MixWithinBounds | fds_scripts/federated_sim.py:129-142 | with non-negative weights the average stays between the clients' bounds, scaled by the total weight |
| SecureAggregation.Antisymmetrise | fds_scripts/federated_sim.py:284-289 | in place, the lower triangle becomes the negated old upper triangle and nothing else changes |
| SecureAggregation.MaskedUpdate | fds_scripts/federated_sim.py:291-295 | a client sends its predictions plus the sum of its row of masks |
| SecureAggregation.SecAggAggregate | fds_scripts/federated_sim.py:263-307 | the result is the clipped average plus exactly the mask residue, and the assertion fails exactly when some sample's residue reaches 0.05 |
| SecureAggregation.PairsMeet | fds_scripts/federated_sim.py:287-300 | a client's masks against earlier clients and their negations leave the masks times the weight differences |
| SecureAggregation.MaskResidue | fds_scripts/federated_sim.py:284-300 | the weighted sum of all masks is the weighted diagonal masks plus, for each pair, its mask times the difference of the two weights |
| SecureAggregation.EqualWeightsLeaveDiagonal | fds_scripts/federated_sim.py:284-300 | with equal weights only the diagonal masks remain |
| SecureAggregation.PairsCancelIffEqualWeights | fds_scripts/federated_sim.py:284-305 | for every draw only the diagonal masks remain, if and only if all clients weigh the same |
| SecureAggregation.CancelsIffWeightless | fds_scripts/federated_sim.py:284-300 | for the draws of the code, diagonal masks included: the masks cancel for every draw if and only if every client weighs nothing |
| SecureAggregation.ConvexWeightsNeverCancel | fds_scripts/federated_sim.py:280-305 | for weights that sum to one, some draw leaves a residue |
| SecureAggregation.SmallMasksPass | fds_scripts/federated_sim.py:302-305 | with convex weights and the masks on and above the diagonal below 0.05/n in magnitude, whatever the overwritten ones are, the assertion can never fire |
| Contribution.CoalitionOrderIrrelevant | fds_scripts/federated_sim.py:347-354 | the renormalised average and the score of a coalition do not depend on the order in which its members joined |
| Contribution.AverageRenormalised | fds_scripts/federated_sim.py:347-354 | a coalition's average times its total weight is the weighted sum of its members' predictions |
| Contribution.PositiveWeightsSummable | fds_scripts/federated_sim.py:350-351 | with positive weights no renormalisation divides by zero |
| Contribution.ScoreCoalition | fds_scripts/federated_sim.py:347-354 | picking, renormalising and averaging a coalition's models scores the coalition average |
| Contribution.ComputeCciScores | fds_scripts/federated_sim.py:312-360 | each client's value is the mean over the sampled permutations of the marginal scores credited to it |
| Contribution.CreditedOnce | fds_scripts/federated_sim.py:346-358 | a pass credits each client exactly once, with the score gained by its joining |
| Contribution.PassTelescopes | fds_scripts/federated_sim.py:344-358 | the credits of a pass add up to the score of the coalition built so far less the baseline |
| Contribution.Efficiency | fds_scripts/federated_sim.py:333-360 | whatever permutations were sampled, the values add up to the score of the full coalition less 0.5 |
| PolicyParser.ParseOr | fds_scripts/consortium_sharing_sim.py:102-109 | on every token list parsing terminates, and a success advances and stays within the list |
| PolicyParser.ParseAnd | fds_scripts/consortium_sharing_sim.py:111-118 | the same for conjunctions |
| PolicyParser.ParseAtom | fds_scripts/consortium_sharing_sim.py:120-129 | the same for atoms |
| PolicyParser.RunParseOr | fds_scripts/consortium_sharing_sim.py:102-109 | the loop over "or" computes the recursive definition |
| PolicyParser.RunParseAnd | fds_scripts/consortium_sharing_sim.py:111-118 | the loop over "and" computes the recursive definition |
| PolicyParser.RunParseAtom | fds_scripts/consortium_sharing_sim.py:120-129 | the atom routine computes the recursive definition |
| PolicyParser.ParseWritten | fds_scripts/consortium_sharing_sim.py:102-129 | a policy written with the parentheses it needs, and possibly more, is parsed to its truth value up to its last token |
| PolicyParser.RenderThenParse | fds_scripts/consortium_sharing_sim.py:96-129 | round trip: rendering any AND/OR tree with parentheses only where needed and parsing it returns the tree's truth value and consumes all tokens |
| PolicyParser.ParseOrIff | fds_scripts/consortium_sharing_sim.py:102-129 | at every position of every token list, evaluation succeeds with a value and an end if and only if the tokens up to that end are a policy of that value, closing parentheses possibly missing, that no operator follows |
| PolicyParser.WrittenIsRendered | fds_scripts/consortium_sharing_sim.py:122-129 | the tokens a success has consumed are the rendering of the policy it read |
| PolicyParser.PolicyMatchIff | fds_scripts/consortium_sharing_sim.py:96-129 | a token list is admitted if and only if it starts with the rendering of a true policy, closing parentheses possibly missing, that no operator follows |
| PolicyParser.WordMatchIff | fds_scripts/consortium_sharing_sim.py:122-129 | a single word is admitted if and only if it is the truth token |
| PolicyParser.SlackInputs | fds_scripts/consortium_sharing_sim.py:97-101 | an unclosed group and a stray trailing token are both admitted |
| PolicyParser.ParseOrMonotone | fds_scripts/consortium_sharing_sim.py:102-129 | making words true leaves every stop position unchanged and never turns a true result false |
| PolicyParser.PolicyMatchMonotone | fds_scripts/consortium_sharing_sim.py:96-100 | satisfying more attributes never turns an admitted policy into a refused one |
| BloomFilter.MarkedIff | fds_scripts/consortium_sharing_sim.py:146-157 | a position is marked exactly when some added item hashes to it |
| BloomFilter.FewMarked | fds_scripts/consortium_sharing_sim.py:146-157 | at most num_hashes positions are marked per added item |
| BloomFilter.NeverForgets | fds_scripts/consortium_sharing_sim.py:153-166 | no false negatives, whatever is added later |
| BloomFilter.MatchIsInclusion | fds_scripts/consortium_sharing_sim.py:164-170 | required attributes match exactly when all their positions are marked |
| BloomFilter.AttributeBloomFilter.constructor | fds_scripts/consortium_sharing_sim.py:140-144 | a new filter is all zero |
| BloomFilter.AttributeBloomFilter.Add | fds_scripts/consortium_sharing_sim.py:153-157 | the bit array is the indicator of all added items' positions, and no bit reverts |
| BloomFilter.AttributeBloomFilter.AddAttributes | fds_scripts/consortium_sharing_sim.py:159-162 | adds exactly the "key:value" items, in order |
| BloomFilter.AttributeBloomFilter.SetBits | fds_scripts/consortium_sharing_sim.py:146-157 | the number of set bits is at most num_hashes times the item count |
| BloomFilter.AttributeBloomFilter.Contains | fds_scripts/consortium_sharing_sim.py:164-166 | true exactly when every position of the item belongs to something added; always true for added items |
| BloomFilter.AttributeBloomFilter.MatchAttributes | fds_scripts/consortium_sharing_sim.py:168-170 | any attributes that have been added match |
| RateLimiter.Limiter.Dispatch | fraud-service/app/middleware/rate_limit.py:54-71 | the trimming loop, the refusal and the admission change the windows by exactly one step |
| RateLimiter.RunTracks | fraud-service/app/middleware/rate_limit.py:54-71 | in every run the deque is the tail of the client's admitted history, holds at most the limit, and what was dropped has left the window |
| RateLimiter.WindowSafety | fraud-service/app/middleware/rate_limit.py:54-71 | every closed 60-second window of a client's admitted history holds at most the limit |
| RateLimiter.Exactness | fraud-service/app/middleware/rate_limit.py:56-71 | a request is refused exactly when the limit was admitted in the preceding 60 seconds, and admitted exactly when fewer were |
| RateLimiter.NonPositiveLimitFails | fraud-service/app/middleware/rate_limit.py:60-61 | every request fails with IndexError if and only if the limit is not positive |
| RateLimiter.Isolation | fraud-service/app/middleware/rate_limit.py:55-71 | other clients' requests influence neither a client's deque, nor its admitted history, nor its next answer |
| RateLimiter.OnlyTrimmed | fraud-service/app/middleware/rate_limit.py:56-58 | while nothing is admitted a client's deque only loses what leaves the window |
| RateLimiter.AdmittedIffOldestLeft | fraud-service/app/middleware/rate_limit.py:57-71 | after a refusal the next request is admitted exactly when the oldest of the requests that filled the window has left it |
| RateLimiter.RetryAfterSufficientAndLeast | fraud-service/app/middleware/rate_limit.py:61-69 | Retry-After lies between 1 and 61 seconds, waiting that long suffices, and waiting a second less does not |
| ChiSquare.ChiSquare3Way | fraud-service/app/scoring/ab_stats.py:59-83 | accumulates the squared deviations of all three categories, skipping empty columns; too small exactly when a sample is empty |
| ChiSquare.TermClosedForm | fraud-service/app/scoring/ab_stats.py:75-83 | a category's contribution is its squared cross difference over the product of both sample sizes and the column total |
| ChiSquare.TermBounds | fraud-service/app/scoring/ab_stats.py:75-83 | a category contributes nothing exactly when its share is equal in both samples, and its maximum exactly when only one sample uses it |
| ChiSquare.StatisticBounds | fraud-service/app/scoring/ab_stats.py:72-83 | the statistic lies between 0 and the number of observations, with both extremes characterised |
| ChiSquare.StatisticSymmetric | fraud-service/app/scoring/ab_stats.py:74-83 | swapping the variants does not change it |
| ChiSquare.ExpectedCountsSum | fraud-service/app/scoring/ab_stats.py:78-79 | a sample's expected counts add up to its size |
| AuditChain.OrderOfAscending | backend/app/api/routes_security_dashboard.py:127-129 | reading in block order leaves a table in block order as it is |
| AuditChain.AuditTable.LogAuditEntry | backend/app/api/routes_security_dashboard.py:57-92 | appends one row that records the entry and times as given, follows the row of greatest index or starts at block 0 after the genesis hash, and returns its index and hash |
| AuditChain.AuditTable.PurgeDb | backend/app/services/audit_retention.py:85-132 | for any batch size and any choice of rows per batch the loop terminates, deletes exactly the expired rows and reports their number; a dry run deletes nothing |
| AuditChain.AuditTable.VerifyAuditChain | backend/app/api/routes_security_dashboard.py:122-135 | valid exactly when, in block order, each row names its predecessor's hash |
| AuditChain.LogKeepsChain | backend/app/api/routes_security_dashboard.py:64-92 | an append extends consecutive, linked, recomputable blocks by one |
| AuditChain.PurgeCutsPrefix | backend/app/services/audit_retention.py:109-127 | with creation times in block order a purge removes a prefix of the chain |
| AuditChain.ChainSurvivesRetention | backend/app/api/routes_security_dashboard.py:64-135 | in every run of appends and purges under a monotone clock the rest is consecutive, recomputes, and verifies |
| AuditChain.RunRecords | backend/app/api/routes_security_dashboard.py:64-92 | in every run the table records, in order, exactly the logged entries that no later purge found expired, each with the entry and times of its operation and the digest of these with its place in the chain |
| AuditChain.PurgedLinksIff | backend/app/services/audit_retention.py:109-127 | for any creation times and distinct hashes, purged links verify if and only if the purge left no hole |
| AuditChain.RunVerifiesIff | backend/app/api/routes_security_dashboard.py:64-135 | in every run of appends and purges, at any clock readings and without hash collisions within a table: verification succeeds if and only if the indices of the remaining rows have no gap |
| AuditChain.PurgeVerifiesIff | backend/app/api/routes_security_dashboard.py:122-135 | in particular after appends alone and one purge: if and only if no expired entry was logged between retained ones |
| AuditChain.NextPurgeVerifiesIff | backend/app/services/audit_retention.py:110-128 | after any run that verifies, one more purge verifies if and only if no deleted row lies between retained ones |
| AuditChain.ClockStepBreaksChain | backend/app/api/routes_security_dashboard.py:122-135 | a concrete run with one backward clock step after which verification fails |
| AuditChain.NextPurgeRepairs | backend/app/services/audit_retention.py:110-128 | a concrete run in which one purge breaks the chain and the next repairs it |
| AuditChain.ExpiredIsPurged | backend/app/services/audit_retention.py:44-61 | the age class "expired" is exactly what a purge at that moment deletes |
| AuditChain.AgeClassIff | backend/app/services/audit_retention.py:44-61 | exactly which ages are expired and which are in the last thirty days |
| EducationStore.ActiveRows | backend/app/services/education_store_db.py:142-150 | finds exactly the active enrolments of a user in a challenge |
| EducationStore.EducationDb.RefreshBoard | backend/app/services/education_store_db.py:487-525 | replaces the user's leaderboard row by one recomputed from the tables |
| EducationStore.EducationDb.Award | backend/app/services/education_store_db.py:427-453 | adds a badge the user does not own and refreshes the row; otherwise changes nothing |
| EducationStore.EducationDb.AdvanceCourseStep | backend/app/services/education_store_db.py:61-105 | creates or advances the progress row, completing it and awarding the badge at the last step |
| EducationStore.EducationDb.Enroll | backend/app/services/education_store_db.py:131-166 | creates the user and an enrolment unless one is active |
| EducationStore.EducationDb.SetValue | backend/app/services/education_store_db.py:186-191 | records a value, completing the enrolment and awarding its badge at 100 percent |
| EducationStore.EducationDb.UpdateChallengeProgress | backend/app/services/education_store_db.py:169-195 | records a value on the only active enrolment, or reports that there is none |
| EducationStore.EducationDb.SyncChallengeProgress | backend/app/services/education_store_db.py:206-253 | applies the computed metrics to the user's active enrolments in order |
| EducationStore.EducationDb.SaveQuizScore | backend/app/services/education_store_db.py:341-359 | records the score and refreshes the leaderboard row |
| EducationStore.AwardKeeps | backend/app/services/education_store_db.py:427-453 | awarding keeps leaderboard rows in agreement and badge names unique |
| EducationStore.ApplyValueKeeps | backend/app/services/education_store_db.py:186-191 | completing an enrolment keeps the store consistent |
| EducationStore.SyncKeeps | backend/app/services/education_store_db.py:235-253 | synchronising any number of enrolments keeps the store consistent |
| EducationStore.RunConsistent | backend/app/services/education_store_db.py:61-525 | in every run: rows agree with the tables, points obey their formula, badges are unique, at most one enrolment is active, completions have their badge, and the completed count never exceeds the true one |
| EducationStore.NeverMultipleRows | backend/app/services/education_store_db.py:143-150 | no step of any run finds two rows where it expects one |
| EducationStore.RunProgress | backend/app/services/education_store_db.py:61-93 | in every run the progress row of a user and a course is determined by the number of successful advances, whatever other operations come between |
| EducationStore.ProgressNeverFalls | backend/app/services/education_store_db.py:75-93 | in every run the step of a started course of at least one step stays between 1 and the number of steps and never falls, and a completed course stays as it is |
| EducationStore.CourseCompletedIff | backend/app/services/education_store_db.py:84-93 | in every run a course is completed, with its badge, if and only if there were at least as many successful advances as steps, and at least two |
| EducationStore.CountCurrentIffNewBadge | backend/app/services/education_store_db.py:442-453 | after a completion the leaderboard's completed count is true if and only if the badge was not owned before |
| EducationStore.RunLagsBy | backend/app/services/education_store_db.py:61-525 | in every run, synchronisations of several enrolments included, the row lags behind by exactly the completions with an owned badge since its last refresh |
| EducationStore.RunCountCurrentIff | backend/app/services/education_store_db.py:61-525 | in every run the completed count is true if and only if the last thing to happen to the row was a refresh, not a completion whose badge was already owned |
| EducationStore.QuizMakesCurrent | backend/app/services/education_store_db.py:356-358 | a quiz makes the completed count true again |
| EducationStore.SecondCompletionNotCounted | backend/app/services/education_store_db.py:189-191 | a concrete run whose second completion the leaderboard misses |
| EducationStore.LongestStreak | backend/app/services/education_store_db.py:295-307 | the streak metric is the length of the longest run of passing scores |
| EducationTables.RunRowsSound | backend/app/services/education_store_db.py:153-191 | in every run each enrolment has its challenge's target and the percentage of its value, and is completed if and only if the value reaches a positive target |
| EducationTables.EnrollRecords | backend/app/services/education_store_db.py:131-166 | enrolling leaves an active enrolment as it is, and otherwise adds one at zero with the challenge's target |
| EducationTables.UpdateRecords | backend/app/services/education_store_db.py:169-195 | an update records its value in the one active enrolment of the pair and nowhere else, or reports that there is none |
| EducationTables.SyncRecords | backend/app/services/education_store_db.py:206-253 | a synchronisation records each computed metric in its own active enrolment and nothing anywhere else |
| EducationTables.RunUsers | backend/app/services/education_store_db.py:136-140 | in every run the users are those who have enrolled in a known challenge |
| EducationTables.RunQuizAverage | backend/app/services/education_store_db.py:341-359 | in every run the leaderboard's quiz average is the mean of the scores the user has saved, and zero without any |
| EducationTables.BadgeCountIs | backend/app/services/education_store_db.py:489-492 | the badge count is the number of the user's badges |
| EducationTables.CompletedCountIs | backend/app/services/education_store_db.py:494-500 | the completed count is the number of the user's completed enrolments |
| EducationTables.BadgeNames | backend/app/services/education_store_db.py:456-475 | courses have distinct badge names, a known challenge has its own, and an unknown one a name of its own |
| EducationTables.RunBadgesEarned | backend/app/services/education_store_db.py:427-453 | in every run every badge belongs to a completed course or challenge of its user |
| EducationTables.ErrorsIff | backend/app/services/education_store_db.py:61-195 | exactly when each error is reported, and that it changes nothing |
| SpendProfile.UserStore.Add | backend/app/services/spend_profile.py:37-43 | updates list, totals, counts, hours and maximum by exactly one transaction |
| SpendProfile.UserStore.Breakdown | backend/app/services/spend_profile.py:67-81 | one entry per category that occurs, in category order |
| SpendProfile.AddRecomputes | backend/app/services/spend_profile.py:37-43 | an addition keeps every aggregate equal to its recomputation |
| SpendProfile.OrderIrrelevant | backend/app/services/spend_profile.py:37-43 | totals, counts, hour counts and maximum do not depend on the order of arrival |
| SpendProfile.PartsAddUp | backend/app/services/spend_profile.py:62-81 | parts by any key add up to the whole |
| SpendProfile.ProfileCorrect | backend/app/services/spend_profile.py:57-96 | the profile's totals equal a recomputation, breakdown totals and counts add up to them, and shares add up to one when money was spent |
| SpendProfile.RunRefines | backend/app/services/spend_profile.py:52-55 | after any ingests and deletions each user's aggregates are those of the history since the last deletion |
| SpendProfile.PeakOrderIndependentIff | backend/app/services/spend_profile.py:64 | the peak hour is the same for every order of arrival if and only if the busiest hour is unique |
| SpendProfile.BestReported | backend/app/services/spend_profile.py:64-65 | the profile reports the peak hour and top category of the history |
| SpendProfile.TopOrderIndependentIff | backend/app/services/spend_profile.py:65 | the top category is the same for every order of arrival if and only if one category alone has the largest amount |
| SpendProfile.GetTrend | backend/app/services/spend_profile.py:102-114 | the nested loop computes the trend of the history |
| SpendProfile.TrendTotals | backend/app/services/spend_profile.py:108-112 | the "_total" entries over all months add up to the total amount |
| SpendProfile.MonthAddsUp | backend/app/services/spend_profile.py:108-112 | in each month every category has its own sum and the categories add up to the month's total |
| SpendProfile.ProfileStore.IngestTx | backend/app/services/spend_profile.py:52-55 | changes the aggregates of the transaction's user only |
| SpendProfile.ProfileStore.DeleteUser | backend/app/services/spend_profile.py:116-120 | removes the user and says whether there was one |
| SpendProfile.ProfileStore.GetProfile | backend/app/services/spend_profile.py:57-96 | no profile without transactions, otherwise one that adds up |
| EdgeApproval.SelectEdge | fds_scripts/mec_simulation.py:222-231 | the quickest active node of the region, else the least loaded active node, and the cloud exactly when none is active |
| EdgeApproval.EdgeLatencyLaw | fds_scripts/mec_simulation.py:33-40 | an edge node answers in its base latency up to half load, and then slower with the square of the overload |
| EdgeApproval.Processor.UpdateState | fds_scripts/mec_simulation.py:215-220 | charges the user and raises the node's load, capped at one |
| EdgeApproval.Processor.ProcessTransaction | fds_scripts/mec_simulation.py:138-213 | decision, node and latency, and the state change of exactly the approved transactions |
| EdgeApproval.ApprovedIff | fds_scripts/mec_simulation.py:144-213 | exactly which amounts and risks are approved |
| EdgeApproval.ResultLaw | fds_scripts/mec_simulation.py:138-213 | the node and the latency that each answer carries |
| EdgeApproval.RefusedIff | fds_scripts/mec_simulation.py:138-213 | exactly when the answer is a denial, an MFA request or an escalation |
| EdgeApproval.MfaRespectedIff | fds_scripts/mec_simulation.py:165-184 | a policy never approves an amount that needs MFA if and only if that amount is above the automatic ceiling or a limit |
| EdgeApproval.RiskRespectedIff | fds_scripts/mec_simulation.py:155-184 | a policy never approves a non-negative amount at or above its risk threshold if and only if that threshold is at least 0.3 or automatic approval is out of reach |
| EdgeApproval.CustomPolicyBypasses | fds_scripts/mec_simulation.py:165-184 | a concrete policy under which one approval reaches both the MFA amount and the risk threshold |
| EdgeApproval.DefaultPoliciesProtective | fds_scripts/mec_simulation.py:68-89 | the default policies meet both conditions |
| EdgeApproval.ApprovalsRespectConditions | fds_scripts/mec_simulation.py:138-213 | in every run every approved amount keeps the sum of the approved amounts within the daily limit and itself within the single limit, and below the MFA amount and risk threshold of a protective policy |
| EdgeApproval.DefaultApprovalsRespectConditions | fds_scripts/mec_simulation.py:138-213 | in every run under the default policies every approved amount respects its daily and single limit, the MFA amount and the risk threshold |
| EdgeApproval.SpendingStep | fds_scripts/mec_simulation.py:138-217 | a transaction changes its own user's spending only, and only if approved and within the daily limit; any other decision changes no state |
| EdgeApproval.SpentIsApproved | fds_scripts/mec_simulation.py:138-217 | in every run the recorded spending is the sum of the approved amounts |
| EdgeApproval.JitterNeverShows | fds_scripts/mec_simulation.py:138-220 | runs that differ in their latency jitters only end in the same state |
| EdgeApproval.SpendingBounded | fds_scripts/mec_simulation.py:142-151 | in every run a user's spending stays within any bound on the daily limits of the tiers it used |
| EdgeApproval.LoadsWithinBounds | fds_scripts/mec_simulation.py:218-220 | in every run node loads stay within [0, 1] and never fall |
| EdgeApproval.LoadIsHandled | fds_scripts/mec_simulation.py:215-220 | in every run a node's load is its initial one and a share of its capacity for every approved transaction it handled, capped at one |
| EdgeApproval.CloudOnlyIff | fds_scripts/mec_simulation.py:132 | a processor works on the cloud alone exactly when it was given nodes and all are inactive |
| ChallengeStore.KeyInjective | backend/app/services/fido_challenge_store.py:36-37 | different scopes or keys never share a slot |
| ChallengeStore.Challenges.Set | backend/app/services/fido_challenge_store.py:44-56 | stores in Redis, or in memory when Redis is away or raises |
| ChallengeStore.Challenges.Pop | backend/app/services/fido_challenge_store.py:59-80 | takes from Redis first and from memory otherwise, expired challenges being dropped |
| ChallengeStore.Challenges.ClearExpiredLocal | backend/app/services/fido_challenge_store.py:83-92 | removes exactly the expired local entries and counts them |
| ChallengeStore.ClearExact | backend/app/services/fido_challenge_store.py:83-92 | clearing removes exactly the local entries that expired before, and their number is that of the entries that went |
| ChallengeStore.TakenIsGone | backend/app/services/fido_challenge_store.py:59-80 | a popped challenge is in neither store and never comes back |
| ChallengeStore.AtMostOnce | backend/app/services/fido_challenge_store.py:44-80 | in every run, with Redis failing at any step, no two pops return the same stored challenge |
| ChallengeStore.Provenance | backend/app/services/fido_challenge_store.py:44-80 | a popped challenge was stored earlier under the same scope and key and is within its time to live |
| ChallengeStore.ClearNeverShows | backend/app/services/fido_challenge_store.py:83-92 | clearing at any point never changes what any later operation returns |
| ChallengeStore.PopReturnsLatestIff | backend/app/services/fido_challenge_store.py:44-80 | exactly when a pop returns the challenge that was just set |
| ChallengeStore.OthersNeverShow | backend/app/services/fido_challenge_store.py:44-92 | operations on other keys, and clears, never change what a pop returns |
| ChallengeStore.RunPopReturnsLatestIff | backend/app/services/fido_challenge_store.py:44-80 | in every run, after a set and then any clears and operations on other keys, exactly when a pop returns the challenge that was set |
| ChallengeStore.SecondPopIff | backend/app/services/fido_challenge_store.py:59-80 | exactly when a second pop of the same key returns another challenge |
| ChallengeStore.OutageReturnsOlder | backend/app/services/fido_challenge_store.py:44-80 | a concrete run with an outage in which a pop returns the older challenge of its key and the next pop the newer one |
| AbacEngine.Evaluate | fraud-service/app/services/abac_engine.py:94-138 | allowed exactly when no rule denies; then exactly the fields are masked that the attributes call for; otherwise the first denial ends the evaluation |
| AbacEngine.AllowedIff | fraud-service/app/services/abac_engine.py:210-287 | the exact condition on clearance, MFA, location, hours and role under which access is granted |
| AbacEngine.MaskedFieldsIff | fraud-service/app/services/abac_engine.py:210-333 | for a granted access, exactly which subjects, resources and environments mask each of the eight fields, and that no other field is masked |
| AbacEngine.DeniedBecause | fraud-service/app/services/abac_engine.py:210-287 | which rule a denial names, in terms of the attributes |
| AbacEngine.FiredIff | fraud-service/app/services/abac_engine.py:210-333 | for a granted access, exactly which rules are reported as applied, in order |
| AbacEngine.LevelIff | fraud-service/app/services/abac_engine.py:109-125 | for a granted access, exactly when the level is column, cell or none, in terms of the attributes |
| AbacEngine.LevelIffFields | fraud-service/app/services/abac_engine.py:109-125 | a decision has a masking level exactly when it masks fields, and never masks rows |
| AbacEngine.RuleMonotone | fraud-service/app/services/abac_engine.py:210-333 | at a lower sensitivity a rule that does not deny does the same or nothing |
| AbacEngine.LowerSensitivityGrantsMore | fraud-service/app/services/abac_engine.py:94-138 | lowering the sensitivity never denies a granted access and never masks more |
| Masking.MaskText | fraud-service/app/services/abac_engine.py:342-345 | first and last character stay, everything between is starred, short texts become three stars |
| Masking.MaskValue | fraud-service/app/services/abac_engine.py:338-345 | the mask of every value: three stars for none and short texts, else a text of the same length with only the first and last character left |
| Masking.MaskValueIdempotent | fraud-service/app/services/abac_engine.py:338-345 | masking a masked value changes nothing |
| Masking.LooksMaskedIff | fraud-service/app/services/abac_engine.py:338-345 | a value is its own mask if and only if it is a text of at least three characters with only stars inside |
| Masking.MaskingLaw | fraud-service/app/services/abac_engine.py:364-379 | a payload is the walk's result if and only if at every path of keys and positions it has the masked value where the original has its first masked key, nothing below, and elsewhere the same keys in order, list length or leaf |
| Masking.ApplyLaw | fraud-service/app/services/abac_engine.py:348-379 | for every payload and decision: the payload itself when the decision masks nothing, and otherwise the one result that obeys the masking law for its fields at every path |
| Masking.UnchangedIffSettled | fraud-service/app/services/abac_engine.py:366-377 | a payload is left alone if and only if every reachable masked key already holds a masked text |
| Masking.CleanUnchanged | fraud-service/app/services/abac_engine.py:366-377 | a payload without reachable masked keys is unchanged |
| Masking.WalkIdempotent | fraud-service/app/services/abac_engine.py:366-377 | walking a masked payload again changes nothing |
| Masking.ApplyIdempotent | fraud-service/app/services/abac_engine.py:348-379 | applying a decision twice is applying it once |
| Masking.MaskData | fraud-service/app/services/abac_engine.py:140-180 | the row loop treats each row by level and selected rows |
| Masking.RowsLaw | fraud-service/app/services/abac_engine.py:140-180 | every cell of the row-wise result: rows, columns and order stay, selected rows are blanked, masked columns hold masks, everything else is unchanged |
| Masking.FormsAgreeIff | fraud-service/app/services/abac_engine.py:140-180 | for every granted decision the recursive and the row-wise form agree if and only if every masked key reachable below an unmasked column already holds a masked text |
| Masking.FlatRowsAgree | fraud-service/app/services/abac_engine.py:348-379 | in particular they agree on all flat rows |
| Masking.DeniedFormsAgreeIff | fraud-service/app/services/abac_engine.py:359-360 | for a denied decision they agree only on no rows |
| ThreatCombination.CombineReports | fraud-service/app/services/osint_adapter.py:87-112 | the loop computes the noisy-or of the clamped, weighted scores and one summary per report |
| ThreatCombination.EffectiveLaw | fraud-service/app/services/osint_adapter.py:97-99 | the effective score is score times weight inside [0, 1], saturates outside, and grows with both |
| ThreatCombination.CombinedBounds | fraud-service/app/services/osint_adapter.py:94-107 | the score lies between 0 and 1 and is at most the sum of the effective scores |
| ThreatCombination.CombineAppend | fraud-service/app/services/osint_adapter.py:94-107 | two lists combine like two feeds |
| ThreatCombination.AddingNeverLowers | fraud-service/app/services/osint_adapter.py:94-107 | a report, wherever it stands, never lowers the score and never exceeds it |
| ThreatCombination.OrderIrrelevant | fraud-service/app/services/osint_adapter.py:94-107 | the order of the reports does not matter |
| AlertDedup.Dedup.Gc | backend/app/services/alert_dedup.py:58-62 | removes exactly the expired entries |
| AlertDedup.Dedup.Allow | backend/app/services/alert_dedup.py:64-76 | the answer and the new cache of one call |
| AlertDedup.Dedup.Reset | backend/app/services/alert_dedup.py:78-85 | removes everything, or exactly the keys that start with the user and the separator |
| AlertDedup.SentIff | backend/app/services/alert_dedup.py:64-76 | in every run an alert is sent exactly when at least the time to live has passed since its key was last sent; suppressed calls do not extend it |
| AlertDedup.SameIdentityIff | backend/app/services/alert_dedup.py:53-56 | for users and kinds without the separator, only alerts of equal user, kind and digest suppress each other |
| AlertDedup.CallSentIff | backend/app/services/alert_dedup.py:53-85 | in every run of calls an alert is sent if and only if it lacks a user or a kind, or no call with the same user, kind and digest of kind and message was sent less than the time to live before without a reset having forgotten it |
| AlertDedup.CollectionNeverShows | backend/app/services/alert_dedup.py:58-62 | collecting expired entries never changes an answer |
| AlertDedup.ResetReachesIff | backend/app/services/alert_dedup.py:53-85 | a reset reaches all of its user's alerts, and some recorded alert of another user if and only if that user has a name and one name continues the other with the separator |
| AlertDedup.ResetExact | backend/app/services/alert_dedup.py:78-85 | a reset forgets, of all recorded alerts of a user, exactly those it is for, if and only if neither name continues the other |
| AlertDedup.ResetResendsIff | backend/app/services/alert_dedup.py:64-85 | over all runs: with resets of one user only in between, an alert of another is sent twice within the time to live if and only if the time to live is positive, that user has a name, and the two are the same or one name continues the other |
| AlertDedup.ResetForgetsOther | backend/app/services/alert_dedup.py:64-85 | a concrete run in which resetting "a" lets an alert of user "a&#124;b" through again after one second |

## Left out

- HTTP routing, path exemptions, address extraction, SQL sessions, Redis connections, the mirrored audit log and all message texts: plumbing around the modelled state.
- Model training, prediction, `roc_auc_score`, pandas and SHAP code: the behaviour lives in libraries; predictions and the score function are parameters.
- Contribution.ComputeCciScores: the percentages, the rounding and the final sort by value are not modelled; the default weights are passed in as a list.
- PolicyParser.PolicyMatch: starts from the token list; substituting attributes into the policy text and splitting it is string processing of `_policy_match`. Python's recursion limit is not modelled.
- ChiSquare.ChiSquare3Way: the p-value needs the exponential function; the two-proportion z-test needs the square root and the error function.
- EducationStore.EducationDb.SyncChallengeProgress: of the metrics only the quiz streak is computed here; the calendar-based ones enter as an arbitrary function. Timestamps of rows are not modelled.
- SpendProfile.ProfileStore.GetProfile: the period bounds and the descending sort of the breakdown are not modelled, nor is the order in which months are listed.
- EdgeApproval.Processor.ProcessTransaction: message texts are not modelled and the jitter is a parameter; dictionary defaults are given by the configuration.
- ChallengeStore.Challenges.Pop: base64 is the identity here; the instant of expiry counts as live in both stores.
- AuditChain.AuditTable.VerifyAuditChain: the text naming the broken block is not modelled; like the code it checks links and does not recompute hashes.
- AbacEngine.Evaluate: reasons are not modelled; a denial names the denying rule instead.
- Masking.MaskData: the text Python gives for a nested list or dictionary is a parameter.
- Interleavings of concurrent calls: each public call is one atomic step.
- Differential privacy noise, key generation, KGroup matching, channel selection, `count_expired_sync`, `get_*` listings: they would add only easy members.
