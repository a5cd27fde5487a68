# CyberWatchtower model

CyberWatchtower scans a host, scores what it finds, and keeps a memory of reports, findings and
decisions. This project models its deterministic engines in Dafny and proves what they promise:

- **Scoring.** Findings are grouped into families, priced with floored diminishing weights, capped per
  category by a greedy two-budget allocation and held under confirmed-severity ceilings
  (`ScoringContracts.dfy`, `ScoringPenalties.dfy`, `ScoringModel.dfy`, `ScoringLaws.dfy`). The loops that
  compute this are methods proved against a specification on sets of findings (`ScoringEngine.dfy`), which
  `ScoringReference.dfy` proves equal to a definition on the findings alone. The report validator re-derives
  the score (`ScoringReport.dfy`), `ScoringSerialization.dfy` says exactly when both sides agree, and
  `StoredScores.dfy` what a stored score must show.
- **Lifecycle and ingestion.** `Lifecycle.dfy` folds a report history into finding summaries and events,
  `LifecycleLaws.dfy` and `LifecycleIdentity.dfy` prove its closed form and event algebra, and
  `LifecycleEvents.dfy` says which events, with which values, each report books, and
  `LifecycleEngine.dfy` runs it with mutable state objects and late stamping. `MemoryModel.dfy`,
  `MemoryTables.dfy`, `MemoryInvariant.dfy` and `Ingestion.dfy` model transactional ingestion into tables as
  a refinement of a set of accepted reports; `StoredRows.dfy` reads every row off the submissions.
  `HistoryComparison.dfy` compares two reports and agrees with the lifecycle step; `Coverage.dfy` holds the
  coverage rules both use.
- **Firewall policy.** A three-valued rule matcher under missing facts, its evaluator, diagnostics and
  rule normalisation (`FirewallPolicy.dfy`, `FirewallDiagnostics.dfy`); `FirewallRules.dfy` says what each
  condition and each rule means, `FirewallCauses.dfy` what a diagnosis lists. Listener reachability and its
  report form follow (`Reachability.dfy`, `ReachabilityReports.dfy`).
- **Capability proposals.** Length-prefixed canonical bytes with UTF-8 text (`Encoding.dfy`, laid out byte by
  byte in `EncodingLayout.dfy`) and default materialisation (`Proposals.dfy`, `ProposalAcceptance.dfy`).
- **Stores and merging.** Decision and baseline histories (`Decisions.dfy`, row by row in `DecisionRows.dfy`)
  and the merging of transient network finding instances (`Canonicalization.dfy`, `CanonicalFindings.dfy`,
  `Grouping.dfy`).

`Common.dfy`, `Orders.dfy` and `Text.dfy` hold shared definitions; `Witnesses.dfy` shows that what the results
assume of digests can be met.

Each engine is specified by functions that its methods compute; beside them stand laws that say, in the terms
of inputs and results alone, what each branch, field, constant and text must be.

Two conventions run through the model. What the program borrows from its runtime - SHA-256, Unicode case
folding and character classes - is a parameter (`TextServices`, `sha256`, `casefold`), and theorems that
need it assume no more than `TextServices.Valid` (digests are 64 hexadecimal digits, folding adds no NUL, visible
ASCII is plain) and that no two of the finitely many texts actually digested share a digest: the group keys of the
findings (`DigestsApart`), the reports of the store (`KeysApart`) or its events. `Witnesses.dfy` shows that these
assumptions can be met for every finding set and every store with at most 16^64 such texts. Timestamps are
integers in time order.

## Findings about the code

- Not every engine result can be stored. The category caps allow 150 penalty points; above 100 the additional
  guardrail penalty would be negative and the validator refuses the score. `ScoringSerialization.StorableExactlyWhen`
  gives the exact condition, `CostlyIsRefused` the refusal and `FiveCriticalsAreRefused` a five-finding example.
- A finding id with a Unicode format character is scored but refused by the report validator
  (`ScoringSerialization.FormatCharacterIsRefused`, for every such finding set; `Witnesses.HiddenCharacterIsRefused`
  exhibits one).
- The incremental upsert of a finding row depends on the order of ingestion (`Ingestion.UpsertAloneIsOrderDependent`);
  only the rebuild in the same transaction makes the stored rows order independent.
- Rule normalisation keeps the diagnostic provenance of the last of several equal rules, since provenance takes
  no part in rule equality; verdicts are not affected (`FirewallDiagnostics.NormalisationForgetsOrder`).

## Model

| member | source | states |
|---|---|---|
| ScoringPenalties.FamilyClosedForm | src/cyberwatchtower/scoring_v2.py:172-221 | For every weight in both tables a family costs b with one endpoint, b + b/2 with two and 14b/8 from three on; the family cap never lowers one or no endpoint |
| ScoringLaws.FamilyPrice | src/cyberwatchtower/scoring_v2.py:183-221 | The price of a real network family depends only on its base weight and on how many distinct ports it has; further ports and repeats add nothing |
| ScoringModel.MembersAgree | src/cyberwatchtower/scoring_v2.py:144-169 | Findings with the same group key share category, and for network findings severity and state; other findings are grouped alone |
| ScoringModel.GroupFacts | src/cyberwatchtower/scoring_v2.py:183-244 | Everything a group reports is the same whichever member speaks for it |
| ScoringModel.GroupIdsDiffer | src/cyberwatchtower/scoring_v2.py:144-169 | Where the group keys of the findings have digests of their own, equal group ids mean equal keys: the NUL-joined keys are injective |
| ScoringEngine.EndpointPenalties | src/cyberwatchtower/scoring_v2.py:183-221 | The endpoint dictionary ends with one base penalty per distinct endpoint of the family |
| ScoringEngine.NetworkGroups | src/cyberwatchtower/scoring_v2.py:183-221 | The family loops produce the groups fixed by the set of findings alone, sorted as the code sorts them; which findings a group joins is ScoringReference.KeyMeansRisk |
| ScoringReference.KeyMeansRisk | src/cyberwatchtower/scoring_v2.py:136-161 | Two eligible findings share a group key iff they are one finding outside the network category, or network findings whose folded sources, protocols, binds, reachability, severities and states agree and whose programs are the same: same folded application, else same folded process, else same port |
| ScoringEngine.AtomicGroups | src/cyberwatchtower/scoring_v2.py:224-244 | One group per non-network finding, in finding-id order, each with the values its finding fixes |
| ScoringPenalties.GrantTotal | src/cyberwatchtower/scoring_v2.py:256-287 | Serving groups in any order from the two budgets grants min(category budget, confirmed + min(potential, potential budget)), and never more than its budget to potential groups |
| ScoringPenalties.GrantServesConfirmedFirst | src/cyberwatchtower/scoring_v2.py:247-287 | In allocation order confirmed groups together receive all they ask for, up to the category budget |
| ScoringPenalties.CappedClosedForm | src/cyberwatchtower/scoring_v2.py:256-287 | The applied total of a category is min(T, C + min(P, p)), in the caps T, p and the pre-cap sums C, P |
| ScoringPenalties.CappedShares | src/cyberwatchtower/scoring_v2.py:256-287 | Potential groups never receive more than the potential cap in all; confirmed groups receive min(C, T) |
| ScoringPenalties.CappedForgetsOrder | src/cyberwatchtower/scoring_v2.py:256-287 | The capped groups do not depend on the order in which groups were produced |
| ScoringEngine.Allocate | src/cyberwatchtower/scoring_v2.py:256-287 | The greedy loop over decreasing budgets records, per group id, exactly what the two-budget rule grants |
| ScoringEngine.CapGroups | src/cyberwatchtower/scoring_v2.py:256-287 | The in-place allocation yields the capped groups and the category breakdown of the specification |
| ScoringEngine.CalculateSecurityScoreV2 | src/cyberwatchtower/scoring_v2.py:290-356 | For every list of valid findings whose group keys have digests of their own: refused iff a finding id repeats, else scored with the reference score, and one contributor cites two findings iff they are one risk |
| ScoringReference.CitedTogetherExactlyWhen | src/cyberwatchtower/scoring_v2.py:136-244 | One contributor cites two eligible findings exactly if they are one risk, by source, protocol, bind, reachability, severity, state and program |
| ScoringReference.ScoreIsReference | src/cyberwatchtower/scoring_v2.py:290-356 | The score equals an independent definition on the findings: risks priced b, b + b/2 or 14b/8 by distinct ports, min(T, C + min(P, p)) per category, then the ceilings 49, 74, 89, 94 and 20 for two confirmed critical risks |
| ScoringReference.ContributorDescribesRisk | src/cyberwatchtower/scoring_v2.py:183-287 | Every contributor describes one risk field by field: ids, category, severity, state, basis text, digest text of its id, penalties and price |
| ScoringReference.PointsGoByRank | src/cyberwatchtower/scoring_v2.py:247-287 | A risk of higher rank (confirmed first, then severity, price and id) is charged in full before a lower one of its category gets anything, each within the potential cap |
| ScoringReference.ResultIsReference | src/cyberwatchtower/scoring_v2.py:290-356 | Everything else in a result is what the findings call for: the three categories in order with their costs and saturation, risk level, total penalty and contributors in id order |
| ScoringReference.ResultCounts | src/cyberwatchtower/scoring_v2.py:290-356 | The five severity counts count all findings, and the highest confirmed severity is the gravest of a confirmed eligible finding |
| Text.DecimalIs | src/cyberwatchtower/scoring_v2.py:136-164 | Ports enter keys as decimal digits without a leading zero that read back as the port |
| ScoringEngine.ScoreForgetsOrder | src/cyberwatchtower/scoring_v2.py:290-356 | Permuted lists of findings give the identical result or the identical refusal |
| ScoringLaws.CategoryCharge | src/cyberwatchtower/scoring_v2.py:183-287 | Summing any charge over the listed groups of a category equals the order-free sum over its distinct keys |
| ScoringLaws.ScoreClosedForm | src/cyberwatchtower/scoring_v2.py:290-356 | The score is the order-free closed form, the total penalty its complement to 100, the highest severity that of the most severe confirmed eligible finding |
| ScoringLaws.HighestIsTop | src/cyberwatchtower/scoring_v2.py:290-356 | The highest confirmed severity read off the groups is that of the findings |
| ScoringLaws.ScoreIsMonotone | src/cyberwatchtower/scoring_v2.py:290-356 | More findings never give a higher score, for every pair of finding sets |
| ScoringLaws.PotentialFloor | src/cyberwatchtower/scoring_v2.py:256-356 | Without a confirmed eligible finding the score is at least 45 |
| ScoringLaws.ContributorsPartitionEligible | src/cyberwatchtower/scoring_v2.py:183-244 | The contributors cite every eligible finding and nothing else; where group keys have digests of their own, their ids differ and no finding is cited by two of them |
| Witnesses.ScoringIsUnrestricted | src/cyberwatchtower/scoring_v2.py:163-169 | For any finding set some digest function of the right shape gives its group keys digests of their own and changes nothing else, so no finding set is excluded by that assumption |
| ScoringReport.ValidateCategories | src/cyberwatchtower/scoring_report.py:228-275 | The loop accepts exactly the three known categories once each, in order, each with 0 <= applied <= raw penalty |
| ScoringReport.ValidateContributor | src/cyberwatchtower/scoring_report.py:296-395 | One contributor passes exactly if it is well formed and shares no group id or finding with those before it |
| ScoringReport.ValidateContributors | src/cyberwatchtower/scoring_report.py:296-395 | The loop accepts exactly the lists whose contributors are well formed, pairwise disjoint and sorted by group id, and strips their texts |
| ScoringReport.ValidateGuardrail | src/cyberwatchtower/scoring_report.py:398-469 | Accepts exactly the guardrail that re-derivation from categories and contributors gives |
| ScoringReport.ValidateSerializedScore | src/cyberwatchtower/scoring_report.py:472-580 | The whole validator accepts exactly the scores that satisfy header, categories, contributors, totals and guardrail rules, hands them on with texts stripped and absent severity counts zero, and each error says what is wrong |
| StoredScores.AcceptableExactlyWhen | src/cyberwatchtower/scoring_report.py:228-580 | A stored score is accepted exactly if its total and contributors are in order and all else is what they call for: score 100 minus total, the three named categories with the contributors' sums, and the guardrail that makes up the difference |
| StoredScores.ValidatedIs | src/cyberwatchtower/scoring_report.py:472-580 | The validated score differs from the stored one in stripped texts and filled-in counts only, field by field |
| StoredScores.StoredIs | src/cyberwatchtower/scoring_report.py:124-199 | The stored form of a result shows its own values, field by field, in the texts of the closed vocabularies |
| StoredScores.StoredCountsAre | src/cyberwatchtower/scoring_report.py:164-170 | Each severity is stored under its name with its count |
| ScoringReport.ValidationIsStable | src/cyberwatchtower/scoring_report.py:472-580 | A validated score is accepted again and comes out unchanged |
| ScoringReport.SerializeScoringResult | src/cyberwatchtower/scoring_report.py:124-202 | Serialising succeeds exactly if the report has every cited finding and the stored form is acceptable, and then returns the stored form; it reports an unknown finding exactly if there is one, else what is wrong with the score |
| ScoringSerialization.StoredGuardrailOk | src/cyberwatchtower/scoring_report.py:124-141 | For an engine result the guardrail is accepted iff the category penalties sum to at most 100 |
| ScoringSerialization.StoredCategoriesOk | src/cyberwatchtower/scoring_report.py:228-275 | The engine's categories always pass, and contributor totals add up to them |
| ScoringSerialization.ContributorIsWellShaped | src/cyberwatchtower/scoring_report.py:296-395 | Every group the engine produces has the penalties, basis and counts the validator re-derives |
| ScoringSerialization.StorableExactlyWhen | src/cyberwatchtower/scoring_report.py:143-199 | Where group keys have digests of their own, an engine result is accepted iff its category totals sum to at most 100, it has at most 4096 groups, and every eligible finding is in the report, has an id without format characters and is in a group within the size limit |
| ScoringSerialization.FiveCriticalsAreRefused | src/cyberwatchtower/scoring_report.py:398-469 | Three critical other risks and two critical firewall risks cost 110 points, and their score is refused |
| ScoringSerialization.CostlyIsRefused | src/cyberwatchtower/scoring_report.py:398-469 | No finding set whose categories cost more than 100 points has a storable score, whatever the digests |
| ScoringSerialization.FormatCharacterIsRefused | src/cyberwatchtower/scoring_report.py:89-105 | No finding set with an eligible finding whose id holds a format character has a storable score, whatever the digests |
| Witnesses.HiddenCharacterIsRefused | src/cyberwatchtower/scoring_report.py:89-105 | One valid finding with a zero-width space in its id is scored and its score refused |
| Coverage.NormalizeCoverage | src/cyberwatchtower/report_contracts.py:143-184 | The loop records one state per applicable domain, in order; it is refused exactly when the domain list is |
| Coverage.NormalizedIs | src/cyberwatchtower/report_contracts.py:143-184 | Each applicable domain, by name and in order, is recorded COMPLETE or INCOMPLETE iff the report says so, and UNKNOWN otherwise |
| Coverage.ReportProofIs | src/cyberwatchtower/report_contracts.py:187-207 | Coverage proves absence for a source iff the domain names are valid and every domain name the source needs is among them and shown COMPLETE |
| Coverage.StoredProofIs | src/cyberwatchtower/memory/lifecycle.py:39-49 | The same of the stored column, by domain name: network needs the sockets, firewall_technology and firewall_inbound_policy themselves, firewall its technology and input policy, any other source can never be proved absent |
| Coverage.NoColumnProvesNothing | src/cyberwatchtower/memory/lifecycle.py:39-49 | An unreadable coverage column proves nothing |
| Coverage.StoredMeans | src/cyberwatchtower/memory/lifecycle.py:39-49 | A stored coverage column proves absence iff the source has requirements, every stored name is a known domain and every required domain is stored as complete |
| Coverage.StoredDecidesSame | src/cyberwatchtower/report_contracts.py:170-207 | The stored column, in any key order, proves what the report's own coverage and domains prove |
| Coverage.AssuranceMeans | src/cyberwatchtower/report_contracts.py:210-232 | Full assurance iff no limitation, and then every source whose domains apply can prove absence; with no assurance none can |
| Coverage.AssuranceIs | src/cyberwatchtower/report_contracts.py:210-232 | Assurance and limitations named domain by domain: limited are exactly the applicable domains not shown COMPLETE, in their order; assurance is COMPLETE with none, INCOMPLETE with all of them limited, PARTIAL between |
| Coverage.LimitationsInOrder | src/cyberwatchtower/report_contracts.py:225-232 | Limitations are listed in the order of the applicable domains |
| LifecycleEngine.SeeAgain | src/cyberwatchtower/memory/lifecycle.py:80-99 | A repeated sighting drafts its events from the old field values, then updates the state object in place |
| LifecycleEngine.SeeAll | src/cyberwatchtower/memory/lifecycle.py:66-99 | The occurrence loop over mutable states agrees with the functional fold, for states and for drafted events |
| LifecycleEngine.MissAll | src/cyberwatchtower/memory/lifecycle.py:100-109 | The absence loop in finding-id order agrees with the functional fold, whose events are those of LifecycleEvents.AbsenceBooks |
| LifecycleEngine.StampLate | src/cyberwatchtower/memory/lifecycle.py:110-119 | The in-place stamping loop stamps exactly the unstamped events that satisfy its condition |
| LifecycleEngine.LateStamping | src/cyberwatchtower/memory/lifecycle.py:110-119 | After a report's stamping loop every event is stamped, old ones unchanged and new ones with this report |
| LifecycleEngine.Derive | src/cyberwatchtower/memory/lifecycle.py:52-120 | The whole derivation over mutable objects ends in the states and the events of the fold that stamps at append; what that fold books is fixed by the LifecycleEvents laws |
| LifecycleEvents.FirstReportBooks | src/cyberwatchtower/memory/lifecycle.py:68-79 | The first report of a finding books exactly one FIRST_SEEN event, without values |
| LifecycleEvents.LaterReportBooks | src/cyberwatchtower/memory/lifecycle.py:80-99 | A later report books REOPENED iff some report in between proved the finding absent, else SEEN, without values, then exactly the changes of severity, state and kind, each from the last reported value to the new one |
| LifecycleEvents.AbsenceBooks | src/cyberwatchtower/memory/lifecycle.py:100-109 | A report without the finding books RESOLVED iff it is the first since the last sighting to prove absence for the source last reported, from ACTIVE if the report before it had the finding and from RESOLUTION_UNCERTAIN otherwise, to RESOLVED |
| LifecycleEvents.NothingBooked | src/cyberwatchtower/memory/lifecycle.py:66-109 | A finding no report has held yet has no events |
| LifecycleEvents.EventsCarry | src/cyberwatchtower/memory/lifecycle.py:66-119 | Over every run each event carries the values of its kind: none for sightings, two different values for changes, ACTIVE or RESOLUTION_UNCERTAIN to RESOLVED for resolutions |
| LifecycleLaws.FindingsAreIndependent | src/cyberwatchtower/memory/lifecycle.py:52-120 | The summary and the events of one finding do not depend on any other finding |
| LifecycleLaws.LifecycleClosedForm | src/cyberwatchtower/memory/lifecycle.py:52-120 | Active iff in the last report; resolved iff absent and some report since the last occurrence proves absence for its source; else uncertain; counts and latest values likewise |
| LifecycleLaws.SeenTimesAreExtremes | src/cyberwatchtower/memory/lifecycle.py:66-108 | First and last seen are the extremes of the times of the reports holding the finding |
| LifecycleLaws.StepResolutions | src/cyberwatchtower/memory/lifecycle.py:80-109 | A report adds at most one RESOLVED or REOPENED event, exactly when the resolved state changes |
| LifecycleLaws.ResolutionAlgebra | src/cyberwatchtower/memory/lifecycle.py:80-109 | Over every run RESOLVED and REOPENED alternate starting with RESOLVED, their difference is 1 iff resolved, and the summary counts reopenings and remembers the last resolution |
| LifecycleLaws.ChangeChain | src/cyberwatchtower/memory/lifecycle.py:84-90 | Severity, state and kind changes form a chain from the first occurrence's value to the current one, each changing something |
| LifecycleIdentity.EventKeysDistinct | src/cyberwatchtower/memory/lifecycle.py:110-120 | No two derived events share report, finding and type |
| LifecycleIdentity.EventIdDetermines | src/cyberwatchtower/memory/lifecycle.py:34-36 | Among texts with digests of their own, an event id determines its system, report, finding and type |
| LifecycleIdentity.EventIdsDistinct | src/cyberwatchtower/memory/lifecycle.py:34-36 | All event ids of a history differ, if the joined texts they digest have digests of their own |
| HistoryComparison.FindingIndex | src/cyberwatchtower/history.py:41-53 | Later findings replace earlier ones; when duplicates are rejected the first repeated id is reported |
| HistoryComparison.CompareReports | src/cyberwatchtower/history.py:56-128 | Added, resolved and uncertain findings are exactly those of the three id sets, in id order; score change and trend agree |
| HistoryComparison.SelectionMeans | src/cyberwatchtower/history.py:118-127 | A selection lists one finding per id of its set, in id order, and nothing else |
| HistoryComparison.ComparisonIs | src/cyberwatchtower/history.py:56-128 | A finding is added iff it is the last of its id in the later report and the earlier has no such id; resolved or uncertain iff it is the last of its id in the earlier and the later has none, parted by whether the later coverage shows every domain its source needs as complete; each list ascends by id |
| HistoryComparison.ComparisonAccountsForAll | src/cyberwatchtower/history.py:98-112 | The three selections are disjoint and previous + added = current + resolved + uncertain, as sets and in number |
| HistoryComparison.ComparisonAgreesOnDisappearance | src/cyberwatchtower/history.py:98-112 | For a finding of the earlier report: compared as resolved iff the lifecycle step books RESOLVED, as uncertain iff it ends uncertain |
| HistoryComparison.ComparisonAgreesOnAppearance | src/cyberwatchtower/history.py:98-99 | Compared as added iff the lifecycle books FIRST_SEEN, REOPENED, or SEEN after uncertainty |
| MemoryModel.ReportIdDetermines | src/cyberwatchtower/memory/ingestion.py:149-151 | Among texts with digests of their own, a report id determines the system and the content digest, whatever text the system id is |
| MemoryModel.AcceptAllMeans | src/cyberwatchtower/memory/ingestion.py:405-508 | After any run a store holds what it held plus every acceptable submission whose digest was new |
| MemoryModel.Confluence | src/cyberwatchtower/memory/ingestion.py:405-508 | The accepted set does not depend on ingestion order or repeats |
| MemoryModel.RepeatIsDuplicate | src/cyberwatchtower/memory/ingestion.py:432-459 | Once ingested, a report is a duplicate after any further ingestions, and changes nothing |
| StoredRows.OutcomeMeans | src/cyberwatchtower/memory/ingestion.py:390-508 | Every answer by what the store holds under the digest: nothing, then Ingested iff the score is sound and no finding id repeats; another system, then a conflict; the same system, then a duplicate unless strict ingestion finds a stored value that differs |
| MemoryModel.HistoryIsWellFormed | src/cyberwatchtower/memory/lifecycle.py:53-57 | Every history a store can hold is well formed, so all lifecycle laws apply to it |
| Witnesses.LedgerIsUnrestricted | src/cyberwatchtower/memory/ingestion.py:149-151 | For any set of reports some digest function of the right shape gives its report and event texts digests of their own, so no store is excluded by that assumption |
| MemoryTables.HistoryIsSpec | src/cyberwatchtower/memory/lifecycle.py:52-66 | The history read back from the tables is the sorted history of the accepted set |
| Ingestion.MemoryDatabase.WriteFinding | src/cyberwatchtower/memory/ingestion.py:201-277 | Adds the occurrence row that shows the submitted finding field by field, and a finding row with its values as latest, one sighting more and the later time; refused iff the report already has the finding |
| Ingestion.UpsertAloneIsOrderDependent | src/cyberwatchtower/memory/ingestion.py:211-235 | Two ingestion orders of the same two reports leave different first-seen times in the upserted row, so the rebuild is needed |
| Ingestion.MemoryDatabase.UpdateFindings | src/cyberwatchtower/memory/lifecycle.py:123-143 | Rewrites exactly the rows of the system that have a derived state |
| Ingestion.MemoryDatabase.Rebuild | src/cyberwatchtower/memory/lifecycle.py:123-153 | Deletes and rewrites one system's events and finding rows from its stored reports; nothing else changes |
| Ingestion.MemoryDatabase.WriteReport | src/cyberwatchtower/memory/ingestion.py:461-492 | Everything written before the rebuild; fails exactly on an unsound score row or a repeated finding id |
| Ingestion.MemoryDatabase.IngestNormalized | src/cyberwatchtower/memory/ingestion.py:390-508 | Outcome and accepted set are those of the set machine, answers are as StoredRows.OutcomeMeans says, the store invariant is kept, and every refusal restores all tables |
| StoredRows.FindingIsStored | src/cyberwatchtower/memory/ingestion.py:201-277 | For every accepted submission and finding there is an occurrence row whose report, system, time, title, severity, kind, assessment, source, inferred flag and details are those submitted |
| StoredRows.RowWasSubmitted | src/cyberwatchtower/memory/ingestion.py:201-277 | Every occurrence row of an accepted report shows one of its findings |
| StoredRows.ReportIsStored | src/cyberwatchtower/memory/ingestion.py:461-499 | Every accepted submission has its report row and score row, column by column |
| StoredRows.FindingRowShowsLatest | src/cyberwatchtower/memory/ingestion.py:405-508 | The row of a finding shows the values submitted with the last report holding it, by time and report id; it is RESOLVED iff a later accepted report proves absence for the source submitted there, ACTIVE iff there is no later report, else RESOLUTION_UNCERTAIN |
| StoredRows.FindingRowShowsFirst | src/cyberwatchtower/memory/ingestion.py:405-508 | Its first-seen time is that of the first submission holding the finding |
| StoredRows.FindingRowCounts | src/cyberwatchtower/memory/ingestion.py:405-508 | Its count is the number of accepted submissions holding the finding, and it is recurring iff that is at least two |
| StoredRows.FirstSightingIsStored | src/cyberwatchtower/memory/lifecycle.py:123-153 | The first submission of a finding has one stored event, FIRST_SEEN without values |
| StoredRows.NextSightingIsStored | src/cyberwatchtower/memory/lifecycle.py:123-153 | A submission that reports the finding again has exactly REOPENED or SEEN and its value changes stored, each row with its event id |
| StoredRows.AbsenceIsStored | src/cyberwatchtower/memory/lifecycle.py:123-153 | A submission without the finding has RESOLVED stored, from the state before to RESOLVED, iff it is the first since the last sighting to prove absence, and nothing else |
| StoredRows.NothingIsStored | src/cyberwatchtower/memory/lifecycle.py:123-153 | A submission before the first sighting has no events of the finding stored |
| StoredRows.EveryEventHasItsReport | src/cyberwatchtower/memory/lifecycle.py:123-153 | Every stored event belongs to an accepted submission of its system and is stamped with its report |
| Ingestion.MemoryDatabase.IngestAll | src/cyberwatchtower/memory/ingestion.py:390-508 | A run of calls ends with exactly the accepted set of the set machine, each call answering on what the earlier ones left |
| Ingestion.VerifyMeans | src/cyberwatchtower/memory/ingestion.py:320-387 | Strict duplicate verification passes exactly when stored row, score and sorted findings agree with the report in hand |
| Ingestion.CommitHolds | src/cyberwatchtower/memory/ingestion.py:461-493 | Write and rebuild of one accepted report take a store of a set to a store of the set with it |
| Ingestion.IngestionConfluence | src/cyberwatchtower/memory/ingestion.py:405-508 | Two valid stores whose accepted sets come from runs over the same submissions, in any order and with any repeats, show the same finding rows and the same events in every system |
| Ingestion.IngestBothWays | src/cyberwatchtower/memory/ingestion.py:390-508 | The same on the calls: from two stores of one accepted set, ingesting the same submissions in two orders leaves the same view |
| Ingestion.StoredClosedForm | src/cyberwatchtower/memory/lifecycle.py:123-153 | The stored row of a finding, read off the reports of its system alone: times, count, flags and state; its values and source are those of StoredRows.FindingRowShowsLatest |
| MemoryInvariant.StoresAgree | src/cyberwatchtower/memory/lifecycle.py:123-153 | Stores of the same accepted set show the same findings and events |
| MemoryInvariant.EventTableKeysDiffer | src/cyberwatchtower/memory/lifecycle.py:144-153 | Event ids differ across the whole table and all systems if the texts they digest have digests of their own, so the rebuild never violates the primary key |
| FirewallDiagnostics.MatchDetails | src/cyberwatchtower/firewall_policy.py:829-922 | Rule by rule the loop finds the match, the causes and the details; which rules match which listeners is FirewallRules.MatchesByTerms |
| FirewallRules.PortDecides | src/cyberwatchtower/firewall_policy.py:853-856 | A rule with only a port list applies for sure to the listeners whose port lies in one of its ranges, both ends in, and is ruled out for all others |
| FirewallRules.AddressDecides | src/cyberwatchtower/firewall_policy.py:778-869 | A rule with only local addresses applies where one contains the listener's address, is in doubt if a range remains, and is ruled out otherwise; networks, versions and loopback are spelled out |
| FirewallRules.ProfileDecides | src/cyberwatchtower/firewall_policy.py:846-850 | A rule with only profiles applies where the listener has one of them, is in doubt where its profiles are unknown, and is ruled out otherwise |
| FirewallRules.ApplicationDecides | src/cyberwatchtower/firewall_policy.py:870-882 | A rule for one application digest or service applies to it alone and is in doubt where it is unknown |
| FirewallRules.InterfaceDecides | src/cyberwatchtower/firewall_policy.py:883-893 | A rule for one interface or interface type applies there alone and is in doubt where it is unknown |
| FirewallRules.RuleIsItsConditions | src/cyberwatchtower/firewall_policy.py:829-922 | A rule is ruled out iff one of its ten single-condition restrictions is, in doubt iff none is and one is in doubt, and applies for sure otherwise |
| FirewallRules.MatchesByTerms | src/cyberwatchtower/firewall_policy.py:829-922 | The match of every rule and listener, spelled out in the rule's and the listener's own fields |
| FirewallRules.SplittingARangeChangesNothing | src/cyberwatchtower/firewall_policy.py:853-856 | Writing a range of ports as two adjoining ones never changes a match |
| FirewallRules.CausesNameConditions | src/cyberwatchtower/firewall_policy.py:829-922 | Each cause of indecision is reported iff the condition it names is in doubt |
| FirewallRules.VerdictIs | src/cyberwatchtower/firewall_policy.py:939-1023 | With complete collection verdict, matches, evidence and coverage are those called for by the set of applying rules: more than 16 or any in doubt is INCOMPLETE, both actions a conflict, one action its match, none NO_MATCH |
| FirewallRules.NoVerdictOtherwise | src/cyberwatchtower/firewall_policy.py:939-1023 | More than 8192 rules and repeated ids are refused, each with its own error; without complete collection nothing is matched |
| FirewallRules.CoverageIs | src/cyberwatchtower/firewall_policy.py:1150-1171 | Applicability coverage is unknown iff collection is, complete iff collection and every assessment are, else incomplete |
| FirewallPolicy.DefiniteIsUniversal | src/cyberwatchtower/firewall_policy.py:893-905 | A definite match has no cause of doubt and is universal |
| FirewallPolicy.EvaluationIsValid | src/cyberwatchtower/firewall_policy.py:939-1023 | Every verdict satisfies the assessment constructor and is never AMBIGUOUS |
| FirewallPolicy.EvaluationForgetsOrder | src/cyberwatchtower/firewall_policy.py:939-1023 | Verdict or rejection is the same for every order of the rules |
| FirewallPolicy.EvaluationIgnoresProvenance | src/cyberwatchtower/firewall_policy.py:939-1023 | Verdict or rejection is the same for rule lists that hold equal rules, in any order and with any diagnostic provenance |
| FirewallPolicy.MatchIsStable | src/cyberwatchtower/firewall_policy.py:829-922 | Learning facts keeps every definite match and every non-match of a rule |
| FirewallPolicy.InformationMonotonicity | src/cyberwatchtower/firewall_policy.py:939-1023 | Unless the verdict is INCOMPLETE, filling in unknown listener facts leaves the whole assessment unchanged |
| FirewallPolicy.IndecisionCanBecomeMatch | src/cyberwatchtower/firewall_policy.py:838-905 | Where only listener facts are missing, a listener the constructor accepts exists that knows more and to which the rule definitely applies |
| FirewallPolicy.IndecisionCanBecomeNoMatch | src/cyberwatchtower/firewall_policy.py:838-890 | Where a fact that can rule the rule out is missing (any but the profile, or the profile of a rule that lacks one), an acceptable listener exists that knows more and is ruled out |
| FirewallPolicy.NoMatchNeedsMissingFact | src/cyberwatchtower/firewall_policy.py:838-890 | And only there: a rule that more knowledge rules out had such a fact missing |
| FirewallPolicy.ApplicabilityCoveredExactlyWhen | src/cyberwatchtower/firewall_policy.py:1150-1171 | Applicability is fully covered iff rules are fully collected and no verdict is open or conflicting |
| FirewallDiagnostics.Diagnose | src/cyberwatchtower/firewall_policy.py:1026-1067 | Keeps the verdict, satisfies the diagnostic constructor, collects exactly the causes, features, shapes and origins of the rules in doubt, and never needs the catch-all cause |
| FirewallCauses.CollectedIs | src/cyberwatchtower/firewall_policy.py:1044-1056 | What a diagnosis collects, in rule and listener fields: causes whose condition is in doubt, and features, remote shapes and origins, of exactly the rules no known fact rules out |
| FirewallCauses.DiagnosisAscends | src/cyberwatchtower/firewall_policy.py:1060-1067 | Causes, features, shapes and origins are listed ascending by the text of their values, nothing twice |
| FirewallDiagnostics.CountsMean | src/cyberwatchtower/firewall_policy.py:1070-1127 | Each count entry is a listed value with its exact number of incomplete listeners, and every listed value has one |
| FirewallDiagnostics.AggregateIsValid | src/cyberwatchtower/firewall_policy.py:1070-1127 | Aggregating valid diagnostics always gives a summary that satisfies its constructor |
| FirewallDiagnostics.AggregateCounts | src/cyberwatchtower/firewall_policy.py:1070-1127 | The summary counts all listeners and the undecided ones, and for each cause, feature, shape and origin exactly the undecided listeners that list it; over 8192 listeners it is empty and says so |
| FirewallDiagnostics.ShapeIs | src/cyberwatchtower/firewall_policy.py:802-826 | The shape of a remote restriction: mixed iff it has both the local subnet and explicit addresses, else the one it has, else other |
| FirewallDiagnostics.NormalizeRules | src/cyberwatchtower/firewall_policy.py:1130-1147 | Fails exactly on too many rules or on two different rules of one id; otherwise one rule per id, the last, in id order |
| FirewallDiagnostics.CollidesExactlyWhen | src/cyberwatchtower/firewall_policy.py:1141-1146 | Two rules collide iff they share an id and differ in one of the fourteen fields compared, provenance not among them |
| FirewallDiagnostics.NormalFormKeepsLast | src/cyberwatchtower/firewall_policy.py:1130-1147 | The normal form holds exactly the last rule of each id, position by position in the snapshot |
| FirewallDiagnostics.NormalisationKeepsVerdict | src/cyberwatchtower/firewall_policy.py:1130-1147 | For every snapshot without a collision the normal form is judged as any other way of keeping one rule of each id |
| FirewallDiagnostics.NormalisationForgetsOrder | src/cyberwatchtower/firewall_policy.py:1130-1147 | Snapshots of the same rules, in any order and with any repeats, are judged the same once normalised |
| FirewallDiagnostics.NormalisationIsIdempotent | src/cyberwatchtower/firewall_policy.py:1130-1147 | Normalising a normal form returns it, provenance included |
| Reachability.ReachabilityIsValid | src/cyberwatchtower/reachability.py:93-153 | Every derived assessment has distinct evidence that includes its bind |
| Reachability.BlockedExactlyWhen | src/cyberwatchtower/reachability.py:93-153 | Blocked iff not loopback, rule collection complete, and 1 to 16 rules have no condition the listener is known not to meet, all of them blocks with no condition in doubt, conditions spelled out in rule and listener fields |
| ReachabilityReports.StateIs | src/cyberwatchtower/reachability.py:93-153 | Loopback is not remotely bound; else blocked iff the policy established a block or a fully covered matching block; else potentially reachable |
| ReachabilityReports.EvidenceIs | src/cyberwatchtower/reachability.py:93-153 | Evidence cited is what was given, the bind, and the one entry the policy calls for |
| ReachabilityReports.EvidenceInOrder | src/cyberwatchtower/reachability.py:93-153 | The bind comes first, given evidence follows in its order, the policy adds at most one entry at the end, and nothing is cited twice |
| ReachabilityReports.CoverageIs | src/cyberwatchtower/reachability.py:156-175 | Reachability coverage is unknown iff sockets are and nothing was assessed, complete iff sockets are and every state is settled |
| Reachability.CoverageCompleteExactlyWhen | src/cyberwatchtower/reachability.py:156-175 | Coverage is complete iff sockets are and every listener is loopback or blocked |
| Reachability.PolicyRoundTrip | src/cyberwatchtower/reachability.py:239-298 | Schema 1.7 mappings are read back to the assessment without its match details and written again unchanged; exactly the assessments without such details survive whole |
| Reachability.ReadIsStable | src/cyberwatchtower/reachability.py:239-298 | What has been read once is read back unchanged |
| Reachability.ReachRoundTrip | src/cyberwatchtower/reachability.py:178-236 | Every valid reachability assessment survives its report form |
| ReachabilityReports.PolicyIsShown | src/cyberwatchtower/firewall_policy.py:551-565 | The report form of an assessment shows each of its fields under its own name, and exactly the ids of its matches, ascending |
| ReachabilityReports.PolicyAcceptedExactlyWhen | src/cyberwatchtower/reachability.py:239-298 | A mapping is read as an assessment iff its texts are known, the schema has the disposition it should, evidence is distinct, at most 16 different digests are canonical and the fields agree; each digest becomes one definite match of the stated action |
| ReachabilityReports.ReachIsShown | src/cyberwatchtower/reachability.py:80-90 | The report form of a reachability assessment, field by field, with the two epistemic roles |
| ReachabilityReports.ReachAcceptedExactlyWhen | src/cyberwatchtower/reachability.py:178-236 | A network context is read as an assessment iff roles and texts are known, evidence is non-empty and distinct, and the policy mapping is accepted |
| Bytes.Utf8RoundTrip | src/cyberwatchtower/application/_capabilities.py:413-418 | UTF-8 as in section 3 of RFC 3629 is decoded back, in at most four bytes per character |
| Bytes.Utf8DecodesOnlyEncodings | src/cyberwatchtower/application/_capabilities.py:413-418 | The strict decoder accepts nothing but encodings |
| Encoding.ParameterFits | src/cyberwatchtower/application/_capabilities.py:413-420 | Key and value lengths always fit their two- and four-byte fields |
| Encoding.TargetFits | src/cyberwatchtower/application/_capabilities.py:444-467 | System, report and finding lengths and the report count always fit their fields |
| Encoding.ParametersDecodeUniquely | src/cyberwatchtower/application/_capabilities.py:399-423 | A decoder accepts exactly the parameter encodings and returns what was encoded |
| Encoding.TargetsDecodeUniquely | src/cyberwatchtower/application/_capabilities.py:444-467 | A decoder accepts exactly the target encodings and returns what was encoded |
| Encoding.ParameterBytesInjective | src/cyberwatchtower/application/_capabilities.py:399-429 | Equal parameter bytes mean equal parameters |
| Encoding.TargetBytesInjective | src/cyberwatchtower/application/_capabilities.py:444-473 | Equal target bytes mean equal targets |
| Encoding.EncodingsAreSeparate | src/cyberwatchtower/application/_capabilities.py:399-467 | No parameter encoding equals a target encoding |
| Encoding.CanonicalParameterBytes | src/cyberwatchtower/application/_capabilities.py:399-423 | The loop refuses exactly too many or not uniquely ordered parameters and otherwise builds the encoding |
| Encoding.CanonicalTargetBytes | src/cyberwatchtower/application/_capabilities.py:444-467 | The loop builds the target encoding |
| EncodingLayout.ParametersAre | src/cyberwatchtower/application/_capabilities.py:399-423 | The bytes of a parameter list are the header text, then for each parameter in order its key after a two-byte length, the letter of its kind and its value after a four-byte length |
| EncodingLayout.TargetIs | src/cyberwatchtower/application/_capabilities.py:432-467 | The bytes of a target are the header text, the letter of its kind, the sized system, the number of reports, the sized reports, and a zero or a one with the sized finding |
| EncodingLayout.NumbersAre | src/cyberwatchtower/application/_capabilities.py:413-465 | Lengths are written most significant byte first |
| EncodingLayout.TextIsCharacters | src/cyberwatchtower/application/_capabilities.py:413-465 | Text is written character by character as section 3 of RFC 3629 lays out its bytes |
| Proposals.MaterializeParameters | src/cyberwatchtower/application/_proposals.py:266-304 | Accepts exactly the well-formed requests, returns supplied parameters and missing defaults by key, and each failure code is given exactly where it is the first to apply |
| ProposalAcceptance.AcceptedExactlyWhen | src/cyberwatchtower/application/_proposals.py:243-304 | Parameters are accepted iff at most 32, ascending by key, each of a declared key and kind, required ones there, and every value supplied or filled in within the inclusive range and the choices of its policy; a score history also needs two times in order, at most 366 days apart |
| ProposalAcceptance.EffectiveIs | src/cyberwatchtower/application/_proposals.py:288-303 | The effective parameters are those supplied and the policy defaults of declared keys left out, each key once, ascending |
| Proposals.EffectiveIsCanonical | src/cyberwatchtower/application/_proposals.py:266-304 | Effective parameters have unique ascending keys and are exactly the supplied ones and the missing defaults |
| Proposals.SpelledOutIsSame | src/cyberwatchtower/application/_proposals.py:288-302 | Writing out any of the defaults gives the same effective parameters |
| Proposals.SpelledOutIsAccepted | src/cyberwatchtower/application/_proposals.py:266-304 | And is accepted whenever the original is |
| Proposals.MaterialisationIsIdempotent | src/cyberwatchtower/application/_proposals.py:266-304 | Materialising again changes nothing |
| Proposals.DigestsMeanEffectiveParameters | src/cyberwatchtower/application/_capabilities.py:426-429 | Parameter digests agree iff the effective parameters do |
| Proposals.ConstructProposal | src/cyberwatchtower/application/_proposals.py:334-375 | Succeeds exactly for the right, permitted, available capability with a fitting target and accepted parameters, binds the digests of their canonical bytes for ten minutes, and each refusal is that of the first failing check |
| ProposalAcceptance.TargetFitsExactlyWhen | src/cyberwatchtower/application/_proposals.py:214-231 | A target fits iff it is of the requesting system and a supported kind and names two reports for a comparison, one to read or ingest a report, none for a timeline |
| Proposals.DigestsBindProposal | src/cyberwatchtower/application/_proposals.py:334-375 | Equal digests pin target and parameters; a parameter digest is never a target digest |
| DecisionModel.StepKeepsChains | src/cyberwatchtower/memory/decisions.py:80-148 | Every accepted or refused call keeps the chain invariant |
| DecisionModel.EveryRunIsChained | src/cyberwatchtower/memory/decisions.py:80-148 | Over every run links lead to earlier same-system decisions, never two to one, and exactly the linked ones are SUPERSEDED |
| DecisionModel.StepKeepsHistory | src/cyberwatchtower/memory/decisions.py:80-148 | Rows are only added, never change meaning, and never leave SUPERSEDED or REVOKED |
| DecisionModel.ChainDescends | src/cyberwatchtower/memory/decisions.py:97-122 | Supersession chains run strictly backwards within one system, and all but the head are superseded |
| DecisionModel.HeadOf | src/cyberwatchtower/memory/decisions.py:97-122 | Every decision lies on the chain of some decision that is not superseded |
| DecisionModel.ChainsAreDisjoint | src/cyberwatchtower/memory/decisions.py:97-122 | Chains of different heads share no decision |
| BaselineModel.EveryRunIsVersioned | src/cyberwatchtower/memory/decisions.py:278-363 | Over every run at most one APPROVED baseline per system and type, versions counted up, previous links to lower, once approved versions |
| BaselineModel.VersionsAreOneToN | src/cyberwatchtower/memory/decisions.py:293-312 | The versions of a system and type are exactly 1 to n, increasing |
| BaselineModel.ApprovalBecomesCurrent | src/cyberwatchtower/memory/decisions.py:340-378 | After an approval the approved draft is the current baseline |
| Decisions.DecisionStore.CreateDecision | src/cyberwatchtower/memory/decisions.py:80-122 | Accepted iff the expiry is after the start, a superseded decision is active in the system and the id is new; then exactly one ACTIVE row with the call's fields is added and the superseded one marked; a refused call changes nothing |
| Decisions.DecisionStore.RevokeDecision | src/cyberwatchtower/memory/decisions.py:137-148 | Answers true iff the system has an active decision of that id; then that row is REVOKED and every other row and field as before; else nothing changes |
| DecisionRows.RevokedExactlyWhen | src/cyberwatchtower/memory/decisions.py:80-148 | Over every run a decision is REVOKED iff some accepted revocation named it |
| DecisionRows.RevokedIsFinal | src/cyberwatchtower/memory/decisions.py:80-148 | Over every run, once revoked a decision is refused for revocation and for supersession |
| DecisionRows.CreationIs | src/cyberwatchtower/memory/decisions.py:80-122 | What a creation does to the table, row by row, and when it is refused |
| DecisionRows.DraftIs | src/cyberwatchtower/memory/decisions.py:278-324 | A draft is accepted iff entries are non-empty with distinct keys, its id is new and its predecessor is approved in its line; it adds one row with the next version, and nothing else changes |
| DecisionRows.ApprovalIs | src/cyberwatchtower/memory/decisions.py:340-363 | An approval signs the draft, supersedes the approved row of its line and leaves every other row and field; without a draft of that id nothing changes |
| Decisions.DecisionStore.CreateDraftBaseline | src/cyberwatchtower/memory/decisions.py:278-324 | Appends the next version exactly for unique non-empty entries and an approved same-type predecessor |
| Decisions.DecisionStore.ApproveBaseline | src/cyberwatchtower/memory/decisions.py:340-363 | Answers true iff the system has a draft of that id; then that row is approved with approver and time, the approved row of its line superseded and every other row as before; else nothing changes |
| Decisions.DecisionStore.CreateNextBaselineVersion | src/cyberwatchtower/memory/decisions.py:327-337 | Drafts the next version on the current approved baseline, or refuses without one |
| Canonicalization.DurableEvidenceKeepsValues | src/cyberwatchtower/finding_identity.py:24-36 | Dropping process-id evidence changes no identifying evidence value |
| Canonicalization.IdIgnoresPid | src/cyberwatchtower/network_canonicalization.py:31-38 | The canonical id is unchanged by dropping process ids and counting instances |
| Canonicalization.Canonicalize | src/cyberwatchtower/network_canonicalization.py:61-104 | Groups in first-seen order; the first group with conflicting semantics, indistinct instances or too many of them decides the failure |
| CanonicalFindings.IdIs | src/cyberwatchtower/finding_identity.py:10-39 | A finding keeps a given id; otherwise its id is the text type=, technique_id= and the five identifying fields in order, stripped and folded, with the last entry of each field |
| CanonicalFindings.EvidenceParts | src/cyberwatchtower/finding_identity.py:24-34 | Evidence is a label and a value parted by the first colon, both stripped and folded |
| CanonicalFindings.MergesExactlyWhen | src/cyberwatchtower/network_canonicalization.py:41-97 | A group fails for conflicting semantics iff some member differs from the first in one of fourteen named respects, else for indistinct instances, else for more than 65536 of them |
| CanonicalFindings.CanonicalFindingsAre | src/cyberwatchtower/network_canonicalization.py:61-104 | Success gives, in order of first sight, the first finding of each id; with several instances its count is their sum and its evidence loses exactly the process ids |
| CanonicalFindings.DurableIsWithoutPids | src/cyberwatchtower/network_canonicalization.py:31-38 | Durable evidence is the evidence without exactly the entries labelled pid, in order |
| Canonicalization.MergedIdsAreFirstSeen | src/cyberwatchtower/network_canonicalization.py:66-104 | The output ids are distinct, in first-seen order |
| Canonicalization.BucketsHoldAll | src/cyberwatchtower/network_canonicalization.py:66-75 | Filing candidates under their ids loses and invents no instance |
| Canonicalization.InstancesAreConserved | src/cyberwatchtower/network_canonicalization.py:90-104 | The sum of runtime instance counts is conserved |
| Canonicalization.MergeSpeaksForAll | src/cyberwatchtower/network_canonicalization.py:41-83 | A merged finding has the durable semantics of every instance it stands for |
| Canonicalization.MergeIsIdempotent | src/cyberwatchtower/network_canonicalization.py:90-104 | Canonicalising a merged finding again changes nothing |
| Grouping.GroupBy | src/cyberwatchtower/network_canonicalization.py:66-75 | The dictionary-of-lists loop yields the keys in first-seen order and each key's items in order |
| Grouping.FirstSeenInOrder | src/cyberwatchtower/network_canonicalization.py:66-75 | Keys are listed in the order in which they are first met |

## Left out

- ScoringReport.ValidateSerializedScore: each error says what is wrong, not which of several faults is reported first;
  JSON types and exact key sets are carried by the datatypes.
- ScoringEngine.CalculateSecurityScoreV2: the engine files groups by id, so under a digest collision it would merge two;
  that case is excluded (`DigestsApart`). Scoring v1 and the projection of report findings into scoring findings are not
  modelled.
- Coverage.AssuranceMeans: limitations are the domains, not their message texts.
- LifecycleEngine.Derive: takes the reports and occurrences in the order the SQL queries fix; the tables supply that order
  in the ingestion model. Row keys that are digests of other columns are left implicit.
- LifecycleIdentity.EventIdsDistinct: assumes that finding ids contain no NUL, which report normalisation enforces.
- Ingestion.IngestionConfluence: leaves out `updated_at` and `ingested_at` columns and the `systems` and `system_aliases`
  rows, which depend on the order of ingestion by design.
- Ingestion.MemoryDatabase.IngestAll: the repository has no such loop; it stands for a client's sequence of calls.
- Ingestion.MemoryDatabase.IngestNormalized: starts from a normalised report with a resolved system; reading files,
  normalising, resolving legacy identities, foreign keys and database errors are not modelled.
- Ingestion.VerifyMeans: columns that are digests of the compared ones (finding and occurrence keys) are left implicit.
- HistoryComparison.CompareReports: score and risk texts that are passed through unchanged are left out.
- FirewallPolicy.IndecisionCanBecomeMatch: acceptable listeners and rules are those with canonical spellings, 64
  lower-case hexadecimal digits and ASCII service identities; the constructors accept some other spellings too.
- FirewallPolicy.EvaluationIsValid: addresses are parsed numbers and networks are address ranges; zone suffixes and
  IPv4-mapped IPv6 loopback are not modelled. Service identities are already case folded, so they compare as they are.
- FirewallDiagnostics.Diagnose: sorting by the text of a closed vocabulary is the order of a fixed list in text order.
- FirewallDiagnostics.AggregateIsValid: ill-typed input (`INVALID_RESULT`) cannot be expressed.
- FirewallDiagnostics.NormalizeRules: the semantic rule id is an opaque field; its JSON digest is not modelled.
- Reachability.PolicyRoundTrip: the text of a closed vocabulary is a token that is either a known value or other text;
  digest canonicalisation is a parameter.
- Encoding.CanonicalParameterBytes: text is a sequence of Unicode scalar values, so the failure of encoding a lone
  surrogate cannot be expressed.
- Proposals.MaterializeParameters: integer and timestamp texts are read by parameters; the fixed catalogue is any catalogue
  that its own validation accepts.
- Proposals.ConstructProposal: proposal ids are given; privacy class, expected effects and summaries are not carried.
- Decisions.DecisionStore.CreateDecision: scope, actor, rationale and type are one opaque value; ids and times are given.
- Exceptions to decisions, shown recommendations and action responses: the same transitions again, or plain inserts.
- Canonicalization.Canonicalize: network context and presentation group are opaque values; all evidence is text.
- Report files, retention, integrity scans, investigations, authorisations, the command line, rendering, the advisor and
  platform collection: operating-system calls, text building or transitions simpler than those modelled.
