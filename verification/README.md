# Kepryx: verified core

Kepryx keeps an inventory of assets and watches their risk. Most of it is HTTP and database
plumbing; this project models the stateful algorithms underneath and proves what they keep
over every input, run or interleaving. Databases are collections of rows, Redis is a map with
expiry, and time is a clock reading passed in by the caller.

Each component has a file of rules (the data and a function for every operation), files of
theorems about the rules, and, where the program updates state in place, a class or method
proved equal to the rules. Of the theorems, those of `ReconcileAlerts`, `ReconcileRows`,
`InventoryGraphContents`, `ComplianceResults`, `SelfSecurityFindings`, `SelfSecurityProposals`,
`ScanRanges`, `RiskTables` and `CsvImportContents` say what is written in terms of the tables and
inputs alone.

- **Asset reconciler** (`AssetRecords`, `ReconcileRules`, `ReconcileTheorems`, `ReconcileAlerts`,
  `ReconcileConvergence`, `ReconcileRuns`, `ReconcileRows`, `ReconcilerService`). Reports from
  prioritised sources are folded into rows found by MAC, then address, then name. Alert spacing,
  shadow status and staleness are exact over every run; each row is the history of the reports
  that settled on it, and its fields converge to the best source.
- **Inventory graph** (`InventoryGraphRules`, `InventoryGraphTheorems`, `InventoryGraphContents`,
  `InventoryGraphBuilder`). Three phases share a node budget; no phase leaves a node without an
  edge, and what a graph shows is read off the tables.
- **Tokens** (`TokenRules`, `TokenTheorems`, `TokenBlocklist`). Issue, revocation and single use
  (`exp`, `iat` and `jti` of sections 4.1.4, 4.1.6 and 4.1.7 of RFC 7519) over an expiring store,
  with every store command an atomic step and calls interleaved freely.
- **Compliance audit** (`ComplianceRules`, `ComplianceTheorems`, `ComplianceProjection`,
  `ComplianceResults`, `ComplianceAuditor`). A triple loop over assets, frameworks and controls;
  counters, rows, mappings, alerts and the cached summary agree, and each row says what its asset
  deserves.
- **Self-security** (`Releases`, `SelfSecurityRules`, `SelfSecurityTheorems`, `SelfSecurityFindings`,
  `SelfSecurityProposals`, `SelfSecurityReview`, `SelfSecurityWitness`, `SelfSecurityWorker`). Scans
  of the platform's own packages, proposed updates and their review, under an arbitrary reading of
  version texts.
- **Time windows** (`RateLimitRules`, `RateLimitTheorems`, `RateLimitExtremes`, `RateLimiter`;
  `MfaSecrets`, `LoginRules`, `LoginTheorems`, `LoginService`). The fixed-window limiter and the
  login lockout with its second factor.
- **Scan authorisation** (`Bits`, `ScanAuthorization`, `ScanRanges`). Blocks of section 3.1 of RFC 4632, with
  masks as bit operations and ranges as arithmetic.
- **Risk score** (`RiskEngine`, `RiskTables`) and **CSV import** (`CsvImportRules`,
  `CsvImportTheorems`, `CsvImportContents`, `CsvImporter`).

`Options` and `Texts` are shared.

Some promises turned out to hold only under a condition, which is proved exactly and shown
with an input that breaks it:

- A field converges when a source of maximal priority offers it; otherwise the order of reports
  can decide it (`FieldConverges`, `OrderMattersExactly`, `IncompleteReportsDependOnOrder`).
- Ingestion creates rows without a lookup, so it keeps MACs unique exactly when the MAC is new
  (`NextKeepsInv`, `IngestingTwiceClashes`).
- A refresh token can be used a second time, though only from the instant of its `exp` on
  (`SingleUse`, `SecondUseCanLandAtExpiry`).
- A rollback revives an update proposal without comparing it with what is installed or proposed
  by then (`NextKeepsCurrent`, `CurrencyCanBeLost`; `NextKeepsUnique`, `UniquenessCanBeLost`).
- A scan fails as a whole, with its status left at "running", exactly when the feed of some
  package repeats a CVE that is new to it (`ScanEndsExactly`, `TwiceReportedStopsScan`).
- A known exploited asset of a low tier has a deadline of 14 days, and 90 once its risk rises to
  medium (`DeadlineFollowsTier`, `MoreExposureLaterDeadline`).
- The two passes of the import read the name from different columns under some headers, and then
  duplicates get in although the docstring calls the check atomic (`NamesAreNewExactly`,
  `UnsafeHeadersLetDuplicatesIn`).
- A bucket of the rate limiter starts again exactly when its expiry is set or still will be; a
  first request that crashes in between closes it for good (`ReopensExactly`,
  `CrashLosesTheBucket`).

To verify: `dafny verify dfyconfig.toml`.

## Model

| member | source | states |
|---|---|---|
| `ReconcileTheorems.RunKeepsInv` | app/services/reconciler.py:55-270 | Over every run of reports, ingestions, sweeps and resolutions in which no ingestion brings a MAC that is on a row by then, MACs stay unique and everything `RunKeepsSound` says holds |
| `ReconcileTheorems.RunKeepsSound` | app/services/reconciler.py:55-270 | Over every run whatsoever: `sources` has no duplicates, `is_shadow` says exactly that no authoritative source is recorded, and two open alerts of one type on one asset are at least 24 h apart |
| `ReconcileTheorems.CreationKeepsMacsUniqueExactly` | app/services/reconciler.py:147-171 | A created row keeps MACs unique if and only if no row has its MAC |
| `ReconcileTheorems.IngestingTwiceClashes` | app/api/assets.py:283-288 | Two ingestions of one MAC, which skip the lookup, make the MAC lookup meet two rows, and every later report of it fails |
| `ReconcileTheorems.NextKeepsInv` | app/services/reconciler.py:55-270 | Each event keeps MACs unique if and only if it is not an ingestion of a MAC that is already on a row; the rest of the invariant is kept by all events |
| `ReconcileTheorems.ReconcileKeepsInv` | app/services/reconciler.py:55-83 | A report keeps the invariant and fails exactly when the lookup it settles on meets two rows |
| `ReconcileTheorems.MacLookupIsUnambiguous` | app/services/reconciler.py:69-71 | With unique MACs, compared as addresses, the MAC lookup never meets two rows |
| `ReconcileTheorems.MergeKeepsMacsUnique` | app/services/reconciler.py:69-83 | A merge keeps MACs unique even when the row was found by address or name and the report overwrites its MAC |
| `ReconcileTheorems.CreateKeepsMacsUnique` | app/services/reconciler.py:150-171 | A created row brings no MAC that another row has |
| `ReconcileTheorems.OnlyAddressOrNameCanBeAmbiguous` | app/services/reconciler.py:68-79 | In every state reachable without such an ingestion a report fails if and only if no row has its MAC and its address, or failing that its name, is on two rows |
| `ReconcileTheorems.AtMostOneRecent` | app/services/reconciler.py:248-259 | With spaced alerts the duplicate check sees at most one row, so it never fails |
| `ReconcileTheorems.RaiseKeepsSpacing` | app/services/reconciler.py:239-270 | Raising an alert always succeeds from a spaced table and leaves it spaced, with the old alerts in place |
| `ReconcileTheorems.StaleSweepKeepsInv` | app/services/reconciler.py:202-218 | The stale sweep flags exactly the rows last seen before the cutoff, changes nothing else on any row, and no alert of it fails |
| `ReconcileTheorems.EdrSweepKeepsInv` | app/services/reconciler.py:220-237 | The EDR sweep never fails on a duplicate check and keeps alerts spaced |
| `ReconcileRules.EdrGapRowsAre` | app/services/reconciler.py:222-228 | The sweep looks at exactly the rows of the four kinds whose EDR status is missing or "None" |
| `ReconcileTheorems.RunGrows` | app/services/reconciler.py:136-142 | Along every run rows stay, `sources` only grows at its end, and an asset once managed never becomes shadow again |
| `ReconcileTheorems.MergedReportFindsItsRow` | app/services/reconciler.py:68-82 | After a merge the same report settles on the same row again |
| `ReconcileTheorems.MergeTwiceIsOnce` | app/services/reconciler.py:109-145 | Merging a report twice is merging it once except for `last_seen`, and shows no service drift |
| `ReconcileTheorems.AcceptanceSettles` | app/services/reconciler.py:110-111 | Recording the reporter in `sources` does not change whether its fields are accepted |
| `ReconcileTheorems.ReconcileAgainChangesNothing` | app/services/reconciler.py:55-145 | Reconciling a merged report again picks the same asset, changes only `last_seen` and raises no alert |
| `ReconcileTheorems.CreatedReportFindsItsRow` | app/services/reconciler.py:68-83 | A created asset is recognised by its own report if and only if the report has a readable MAC, a readable address or a name |
| `ReconcileConvergence.Converges` | app/services/reconciler.py:109-126 | For every non-empty stream of complete reports, all eleven fields end at the last report among those of maximal source priority |
| `ReconcileConvergence.InterleavingIsIrrelevant` | app/services/reconciler.py:109-126 | Two streams with the same reports of maximal priority end with the same fields, wherever the other reports arrive |
| `ReconcileConvergence.FieldConverges` | app/services/reconciler.py:109-126 | Without completeness, a field ends at the last offer of maximal priority whenever a source of that priority offered it |
| `ReconcileConvergence.UnofferedStaysInitial` | app/services/reconciler.py:109-168 | A field that nobody of maximal priority offered stays as created, when the creating source had that priority |
| `ReconcileConvergence.OrderMattersExactly` | app/services/reconciler.py:109-168 | Reports of two priorities in either order leave a field the same if and only if the better source offers it or both would create it the same |
| `ReconcileConvergence.IncompleteReportsDependOnOrder` | app/services/reconciler.py:55-126 | Two incomplete reports of one MAC, sent to an empty store in either order, leave one asset with different operating systems |
| `ReconcileConvergence.AcceptedIffNobodyBetter` | app/services/reconciler.py:26-47 | Along a stream a source overwrites fields if and only if no source of higher priority has reported, unlisted sources included |
| `ReconcileConvergence.Enriched` | app/services/reconciler.py:128-134 | Software, CPEs and dependencies end as the union of all reports |
| `ReconcileConvergence.ProvenanceNeverFalls` | app/services/reconciler.py:109-126 | For one asset under a stream of reports, the priority of the source that last wrote a field never falls |
| `ReconcileConvergence.ChangesHaveAWriter` | app/services/reconciler.py:112-126 | A field changes only by a report that carries it, to the value that report carries |
| `ReconcileConvergence.SharedMacBuildsOneRow` | app/services/reconciler.py:55-171 | Reports that share a MAC, however spelled, and are new to the store build one new row, which is the merge of all of them; every other row is untouched |
| `ReconcileRuns.RowsAreHistories` | app/services/reconciler.py:55-218 | After every run from the empty store, whatever interleaves, each row is, but for the stale flag, the creation and merges of exactly the reports whose lookup settled on it |
| `ReconcileRuns.NextIsHistory` | app/services/reconciler.py:55-171 | Each event extends one row by its report or leaves all rows alone but for the stale flag |
| `ReconcileRuns.RunConverges` | app/services/reconciler.py:109-126 | In every run, each field of each row ends at the last report of maximal priority that settled on the row, if those are complete |
| `ReconcileRuns.RunFieldConverges` | app/services/reconciler.py:109-168 | Complete or not, a field ends at the last offer of maximal priority, and as created when there is none and the creator had that priority |
| `ReconcileRuns.RunEnriches` | app/services/reconciler.py:128-134 | In every run, the three sets of a row are the union of what settled on it |
| `ReconcileRuns.RunProvenanceNeverFalls` | app/services/reconciler.py:87-126 | Over every run, the priority of the source that last wrote a field of a row never falls |
| `ReconcileRuns.RunChangesHaveAWriter` | app/services/reconciler.py:109-126 | An event of a run that changes a field is a report that carries the new value, and its source becomes the writer |
| `ReconcileAlerts.RaisedExactly` | app/services/reconciler.py:239-270 | From a spaced table one raise appends exactly one open alert, created now, if no open alert of its type on its asset is younger than 24 h, and nothing otherwise |
| `ReconcileAlerts.UnmatchedReportRaisesShadow` | app/services/reconciler.py:147-183 | A report no row matches leaves exactly one new open shadow alert on the new row, created now, or no new alert at all when its source is authoritative |
| `ReconcileAlerts.CreationRaisesShadow` | app/services/reconciler.py:147-183 | The same for an ingestion, which skips the lookup |
| `ReconcileAlerts.MergeRaisesDrift` | app/services/reconciler.py:90-107 | A merge appends one open drift alert exactly when both service lists name a service, some name is on one of them only, and no open drift alert of the row is younger than a day; nothing otherwise |
| `ReconcileAlerts.StaleSweepRaises` | app/services/reconciler.py:202-218 | The stale sweep goes through and appends one open alert for exactly the rows last seen before the cutoff and not yet flagged of which nothing recent says so |
| `ReconcileAlerts.EdrSweepRaises` | app/services/reconciler.py:220-237 | So does the EDR sweep for exactly the servers, endpoints, workstations and database servers with a missing or "None" status; it changes no row |
| `ReconcileAlerts.SweepsCount` | app/services/reconciler.py:202-237 | Each sweep returns how many rows it concerns, announced again or not |
| `ReconcileRows.LookupIsExact` | app/services/reconciler.py:57-83 | The lookup goes by the first of MAC, address and name that any row answers to, finds the only row that does, is ambiguous when several do, and finds nothing when none answers to any |
| `ReconcileRows.UnmatchedReportCreatesRow` | app/services/reconciler.py:150-171 | A report nothing answers to adds one row: seen now, reported by its source alone, each field as given or else its default |
| `ReconcileRows.MatchedReportUpdatesRow` | app/services/reconciler.py:109-145 | A report one row answers to changes that row alone; kind and other attributes stay, and a field changes only to what the report carries |
| `ReconcileRows.RunRowsAreSeen` | app/services/reconciler.py:136-143 | In every run a row was last seen when its last report settled, keeps the kind it was created with, has the services of its last merge, and is shadow exactly while no authoritative source reported it |
| `ReconcileRows.RunStaleExactly` | app/services/reconciler.py:136-210 | In every run a row is stale if and only if a sweep since its last report found that report older than its cutoff |
| `ReconcileRows.PrioritiesFollowTiers` | app/services/reconciler.py:26-47 | Sources of one tier count the same, an earlier tier counts more, and every listed source more than an unlisted one |
| `ReconcileRows.AuthoritativeTiers` | app/services/reconciler.py:185-200 | Authoritative are exactly the endpoint agents, the directories and clouds, and the inventories |
| `ReconcilerService.Reconciler.ReconcileHost` | app/services/reconciler.py:55-83 | Updates the store in place to exactly what reconciling the report specifies, returns the asset, and appends what it raised to the generated alerts |
| `ReconcilerService.Reconciler.FindExisting` | app/services/reconciler.py:68-79 | Looks up by MAC, then address, then name, and meets none, one or many rows |
| `ReconcilerService.Reconciler.MergeSource` | app/services/reconciler.py:85-145 | Checks drift on the row as it was, then merges; nothing changes when the duplicate check fails |
| `ReconcilerService.Reconciler.ApplyReport` | app/services/reconciler.py:109-145 | The row afterwards is the specified merge of the report |
| `ReconcilerService.Reconciler.OverwriteFields` | app/services/reconciler.py:112-126 | Exactly the eleven fields the report carries take its values |
| `ReconcilerService.Reconciler.CheckDrift` | app/services/reconciler.py:90-107 | From a spaced table appends an open drift alert exactly when both sides name services, the names differ and none is younger than a day |
| `ReconcilerService.Reconciler.CreateFromSource` | app/services/reconciler.py:147-183 | Adds the row the report asks for and what creating it raises: see `CreationRaisesShadow` |
| `ReconcilerService.Reconciler.NoneAuthoritative` | app/services/reconciler.py:185-200 | True exactly when no source of the list is authoritative |
| `ReconcilerService.Reconciler.RaiseAlert` | app/services/reconciler.py:239-270 | From a spaced table appends the alert exactly when none of the type on the asset is open and younger than 24 h; fails only on two such |
| `ReconcilerService.Reconciler.DetectStaleAssets` | app/services/reconciler.py:202-218 | Carries out the specified sweep and returns how many rows it flagged |
| `ReconcilerService.Reconciler.DetectEdrGaps` | app/services/reconciler.py:220-237 | Carries out the specified sweep, one raise per row in row order, and returns how many rows it looked at |
| `ReconcilerService.Reconciler.ResolveAlert` | app/api/alerts.py:57-74 | Closes the alert with that number and no other |
| `InventoryGraphTheorems.GraphHasNoOrphans` | app/api/dashboard.py:188-329 | Every returned graph is consistent and within the node budget, and each non-asset node is the target of an edge from an asset node that is present |
| `InventoryGraphTheorems.AssetsCovered` | app/api/dashboard.py:214-228 | After the asset phase every listed asset has its node or the graph is full |
| `InventoryGraphTheorems.RefusedAssetEndsGrowth` | app/api/dashboard.py:194-329 | If a listed asset has no node in the result, the graph is full and its nodes are those of the asset phase: no alert or CVE node was added |
| `InventoryGraphTheorems.AttachMakesNoOrphan` | app/api/dashboard.py:194-212 | Attaching an item to a present asset adds its node only together with its edge |
| `InventoryGraphTheorems.HangAllKeeps` | app/api/dashboard.py:265-329 | The alert and CVE phases keep the graph consistent and free of orphans |
| `InventoryGraphTheorems.EdgesAreSupported` | app/api/dashboard.py:215-329 | Every edge states a relation the database holds for a listed asset |
| `InventoryGraphTheorems.UntruncatedGraphIsExact` | app/api/dashboard.py:184-342 | A graph not marked truncated has exactly the edges its per-asset quotas call for |
| `InventoryGraphTheorems.QuotasHold` | app/api/dashboard.py:272-329 | No asset has more than two alert edges or four CVE edges |
| `InventoryGraphContents.EveryEdgeHasItsRow` | app/api/dashboard.py:214-329 | Each edge of any graph stands for a fact of one of the first `limit` assets, for an open alert row of one of them within the query limit, or, when vulnerabilities are asked for, for a CVE row of one of them within its limit |
| `InventoryGraphContents.UntruncatedGraphShowsTheTables` | app/api/dashboard.py:184-329 | A graph not marked truncated shows exactly the segment, first five sources and first three dependencies of the chosen assets, the queried open alerts with fewer than two open ones of their asset ahead, and the queried CVEs with fewer than four |
| `InventoryGraphContents.EveryNodeIsCaptioned` | app/api/dashboard.py:194-329 | Each node shows the name of a chosen asset, the title of a queried open alert, or its own text |
| `InventoryGraphContents.UntruncatedGraphHasTheAssets` | app/api/dashboard.py:214-228 | Asset nodes of a graph not marked truncated are exactly those of the first `limit` rows |
| `InventoryGraphContents.AlertsAreMissedOnlyForRoom` | app/api/dashboard.py:265-292 | Full or not, a graph shows every queried alert of an asset in it, unless the asset already shows two or the graph is full without the alert |
| `InventoryGraphContents.CvesAreMissedOnlyForRoom` | app/api/dashboard.py:294-329 | The same for CVEs and four |
| `InventoryGraphBuilder.Builder.AddNode` | app/api/dashboard.py:194-203 | Adds a new node within the budget, reports presence, and marks truncation on refusal |
| `InventoryGraphBuilder.Builder.AddEdge` | app/api/dashboard.py:205-212 | Adds an edge once, between present nodes only |
| `InventoryGraphBuilder.Builder.AddOne` | app/api/dashboard.py:215-263 | One asset with its segment, at most five sources and three dependencies |
| `InventoryGraphBuilder.Builder.AddAll` | app/api/dashboard.py:215-263 | Assets in query order until one is refused |
| `InventoryGraphBuilder.Builder.HangItems` | app/api/dashboard.py:272-329 | Alerts or CVEs in query order under a per-asset quota |
| `InventoryGraphBuilder.InventoryGraph` | app/api/dashboard.py:178-343 | What the endpoint returns is within the budget and free of orphans, each edge has its row in the tables, and an untruncated answer has exactly the edges due |
| `TokenTheorems.SingleUse` | app/core/token_blocklist.py:79-107 | Whatever calls interleave, revocations overwriting the marker included, at most one use of a refresh token lands before `exp` |
| `TokenTheorems.SecondUseCanLandAtExpiry` | app/core/token_blocklist.py:43-47 | The bound is exact: for every issued token a run from the empty store lets two refreshes that read the clock a second before `exp` both succeed, the second at `exp` |
| `TokenTheorems.SpentStaysRevoked` | app/core/token_blocklist.py:57-107 | A used or revoked token is reported revoked in every later state until it expires |
| `TokenTheorems.TtlReachesExp` | app/core/token_blocklist.py:43-47 | A TTL counted from the floored clock keeps the marker at least until `exp`, and less than a second longer unless it is the minimum of one |
| `TokenTheorems.RunKeepsInv` | app/core/token_blocklist.py:57-118 | Over every interleaved run, markers of spent tokens outlive them and user revocations are never weakened |
| `TokenTheorems.UserRevocationReaches` | app/core/token_blocklist.py:57-73 | After a user revocation at R, every token of the user issued no later than R is reported revoked until its own `exp`, through any later steps |
| `TokenTheorems.RevokedRefreshStops` | app/core/token_blocklist.py:90-96 | A refresh that checks after such a revocation is dropped |
| `TokenTheorems.IssuedTokensQualify` | app/core/security.py:36-68 | Refresh tokens fall under the retention always, access tokens when their lifetime is no longer than it |
| `TokenTheorems.LifetimeFromIssue` | app/core/security.py:36-68 | `exp` lies at most one lifetime after `iat_ms`, although the clock is read twice and floored |
| `TokenTheorems.RevokedExactly` | app/core/token_blocklist.py:57-118 | Over every interleaved run, until it expires, a token whose life fits the retention is reported revoked if and only if it was used or revoked itself, or its user was revoked at the instant of its issue or later |
| `TokenTheorems.NotRevokedWithoutCause` | app/core/token_blocklist.py:57-76 | Claims with an identity, not spent and issued after every revocation of their user, are not reported revoked, expired or not |
| `TokenTheorems.UnrevokedTokenCanBeUsed` | app/core/token_blocklist.py:90-107 | After every run an undisturbed refresh of such an unexpired token succeeds, and spends it |
| `TokenTheorems.RevokingSpends` | app/core/token_blocklist.py:79-87 | An undisturbed logout revokes its token at once, whatever state it finds |
| `TokenTheorems.IssuedTokensLast` | app/core/security.py:36-68 | An issued token passes decoding for exactly its lifetime in whole seconds and carries the identity it was issued for |
| `TokenTheorems.RetentionOutlivesRefresh` | app/core/token_blocklist.py:110-118 | A user revocation is kept exactly a minute longer than a refresh token lives |
| `TokenBlocklist.Blocklist.IsTokenRevoked` | app/core/token_blocklist.py:57-76 | True exactly for claims without identity, with a live marker, or issued no later than a live user revocation |
| `TokenBlocklist.Blocklist.RevokeToken` | app/core/token_blocklist.py:79-87 | Sets the marker with the TTL; the token is then reported revoked |
| `TokenBlocklist.Blocklist.RevokeUserTokens` | app/core/token_blocklist.py:110-121 | Sets the user timestamp for the refresh lifetime plus a minute |
| `TokenBlocklist.Blocklist.ConsumeRefreshToken` | app/core/token_blocklist.py:90-107 | Consumed, refused or unavailable for every state of store and network; the token is spent exactly when its SET reaches the store and finds no live marker |
| `TokenBlocklist.Blocklist.Refresh` | app/api/auth.py:144-169 | The answer for every input and every failure of the store; the token is spent before the user is looked up, and even when the answer is lost |
| `TokenBlocklist.Blocklist.CallIsARun` | app/core/token_blocklist.py:90-107 | A call without interference is four steps of the interleaved machine |
| `ComplianceTheorems.AuditConserves` | app/workers/compliance_tasks.py:155-209 | A run adds one result, one evidence item and one link per asset and matched control; overall and per-framework counters count the rows exactly, frameworks sum to the overall counts, and non-compliant is results minus compliant |
| `ComplianceTheorems.CacheAgrees` | app/api/compliance.py:96-129 | Right after a run the stored total and percentage of every framework equal what the endpoint recomputes from the rows, whatever order the grouped query returns |
| `ComplianceTheorems.SummariseCounts` | app/api/compliance.py:55-61 | The endpoint's loop over the groups counts each framework and status exactly once |
| `ComplianceTheorems.GroupsAddUp` | app/api/compliance.py:97-114 | The groups of one framework add up to its result rows |
| `ComplianceTheorems.OfRunIsFresh` | app/workers/compliance_tasks.py:131-153 | The rows with the new run's id are exactly the rows the run added |
| `ComplianceTheorems.OnlyAssessedStatuses` | app/workers/compliance_tasks.py:66-94 | The counters only ever hold the three statuses an assessment can give |
| `ComplianceTheorems.MatchedInItems` | app/workers/compliance_tasks.py:160-166 | The triple loop visits each asset with each matched control exactly once |
| `ComplianceProjection.MappingsFollowResults` | app/workers/compliance_tasks.py:211-234 | After a run each assessed pair's mapping has this run's status, with no second row for its key |
| `ComplianceProjection.AlertsFollowResults` | app/workers/compliance_tasks.py:236-278 | After a run no gap alert is open for a compliant pair and exactly one for a non-compliant pair on an important asset; at most one open alert per asset and title is kept |
| `ComplianceProjection.UntouchedAlerts` | app/workers/compliance_tasks.py:236-278 | Alerts of pairs the run does not assess keep their count |
| `ComplianceProjection.SecondRunIsQuiet` | app/workers/compliance_tasks.py:160-278 | A second run on unchanged assets adds and resolves no alert |
| `ComplianceResults.AddedResultsAreDeserved` | app/workers/compliance_tasks.py:66-94 | Each row a run adds is about one of the assets and a control the frameworks offer and the catalog has; it is compliant with score 100 if and only if the check holds, partial with the nearest hundredth if and only if it does not and some but not all of at least two fields are observed, and else a gap with 0 |
| `ComplianceResults.EveryPairHasItsResult` | app/workers/compliance_tasks.py:160-209 | Every asset gets such a row for every offered control the catalog has |
| `ComplianceResults.AddedResultsAreDistinct` | app/workers/compliance_tasks.py:160-209 | No asset and control have two |
| `ComplianceResults.HundredthsAreNearest` | app/workers/compliance_tasks.py:89-91 | A score is the nearest hundredth of its fraction, the even one of two |
| `ComplianceResults.PercentagesAreNearest` | app/workers/compliance_tasks.py:97-106 | Stored and recomputed percentages are the nearest to compliant among applicable results, and 0 when nothing applies |
| `ComplianceResults.MappingsRepeatResults` | app/workers/compliance_tasks.py:211-234 | The mapping of each pair belongs to this run, points at this run's result row of the very pair and repeats its status |
| `ComplianceResults.AlertsFollowChecks` | app/workers/compliance_tasks.py:236-278 | A pair whose check holds ends with no open gap alert; one on an important asset whose check does not keeps its open ones or gets one; any other keeps what it had |
| `ComplianceResults.OldAlertsCloseExactly` | app/workers/compliance_tasks.py:236-252 | An alert that was there stays what it is, and a run closes it if and only if it is a gap alert and the check of its own pair holds |
| `ComplianceResults.AlertsTellOfTheRun` | app/workers/compliance_tasks.py:253-278 | An important asset that fails a check has an open gap alert, and the first one names this run and the status of its result |
| `ComplianceAuditor.Auditor.constructor` | app/workers/compliance_tasks.py:128-158 | A run starts from the tables, an index of the mappings and empty counters |
| `ComplianceAuditor.Auditor.AssessPair` | app/workers/compliance_tasks.py:162-278 | One control on one asset changes counters, rows, mapping and alerts as specified |
| `ComplianceAuditor.Auditor.SaveMapping` | app/workers/compliance_tasks.py:211-234 | Updates the row the index leads to, or appends one and indexes it |
| `ComplianceAuditor.Auditor.UpdateAlerts` | app/workers/compliance_tasks.py:236-278 | Resolves all open alerts of the pair, updates the first, or opens one |
| `ComplianceAuditor.Auditor.AssessAssets` | app/workers/compliance_tasks.py:160-278 | The three loops are the specified steps over all pairs in order |
| `ComplianceAuditor.RunComplianceAudit` | app/workers/compliance_tasks.py:114-306 | The task's tables and stored summary, with the conservation laws stated about them |
| `ComplianceAuditor.NewSummary` | app/api/compliance.py:96-129 | The endpoint's summary is the finalised sum of the groups |
| `Releases.FixIsLeast` | app/services/self_security_scanner.py:145-170 | A fix is chosen if and only if some readable candidate is above the installed version; it is above it, no higher than any such candidate, and one of them |
| `SelfSecurityTheorems.RunKeepsInv` | app/workers/self_security_tasks.py:51-489 | Over every run from an empty database, each stored fix is above its dependency's version, each proposal's target is above the version it replaces, proposals have their dependency, and whatever is approved, prepared or failed carries an administrator |
| `SelfSecurityTheorems.NextKeepsInv` | app/workers/self_security_tasks.py:51-489 | Each scan, proposal, review or suppression keeps that invariant |
| `SelfSecurityTheorems.ScanAllKeepsDeps` | app/workers/self_security_tasks.py:107-180 | A scan leaves every dependency with fixes above its version and a count no lower than its rows |
| `SelfSecurityTheorems.RowsClashOnRepeats` | app/workers/self_security_tasks.py:136-158 | One dependency's findings cannot be stored if and only if a CVE that is new to it is reported twice |
| `SelfSecurityTheorems.ScanFailsExactly` | app/workers/self_security_tasks.py:107-180 | The whole scan is refused if and only if the feed of some installed package repeats a CVE that it did not have before the scan |
| `SelfSecurityReview.ScanEndsExactly` | app/workers/self_security_tasks.py:51-249 | A scan succeeds if and only if its feeds can all be stored; otherwise the tables stay as they were, and the status is "running" when the feeds were fetched and "failed" when not |
| `SelfSecurityReview.TwiceReportedStopsScan` | app/workers/self_security_tasks.py:142-158 | Two advisories of one CVE, as two databases publish them, stop a first scan and leave it "running" |
| `SelfSecurityTheorems.RowsAreReported` | app/workers/self_security_tasks.py:136-169 | The rows left are exactly the reported CVEs |
| `SelfSecurityFindings.StoredFindingsAreExact` | app/services/self_security_scanner.py:124-170 | Each finding a scan stores is the last advisory's about its CVE; its fix is the least version above the installed one that this advisory lists for a package of this name, ignoring case, and there is one if and only if such a version is listed; its known-exploited mark comes from the catalog and its suppression from before |
| `SelfSecurityFindings.StoredCvesAreReported` | app/workers/self_security_tasks.py:107-173 | The CVEs stored for a package are exactly those its advisories are about, the first CVE alias or the id; none for an excluded package, whose count is 0 |
| `SelfSecurityTheorems.RowsComeFromReports` | app/workers/self_security_tasks.py:142-163 | Each row has the fix of the last report of its CVE; a CVE that had a row keeps its suppression mark, a new one starts unsuppressed; it is known exploited exactly when one of its identifiers is |
| `SelfSecurityTheorems.RowsAreFewer` | app/workers/self_security_tasks.py:171-172 | `cve_count` equals the stored rows if and only if no CVE was reported twice |
| `SelfSecurityTheorems.DraftIsDrafted` | app/workers/self_security_tasks.py:281-327 | A new proposal targets one of the listed fixes, above the installed version and at least every unsuppressed fix, and lists exactly the CVEs with one |
| `SelfSecurityTheorems.ProposeAdds` | app/workers/self_security_tasks.py:257-330 | Proposing leaves old proposals and rows as they are and gives new numbers only to such proposals |
| `SelfSecurityTheorems.NextMoves` | app/workers/self_security_tasks.py:196-200 | Every way a proposal can change in one step: only an approval sets its administrator, only a rollback takes a prepared patch back |
| `SelfSecurityTheorems.NextDrafts` | app/workers/self_security_tasks.py:308-327 | A proposal appears only by proposing, above the installed version and all its fixes |
| `SelfSecurityTheorems.ProposalsAreImmutable` | app/api/self_security.py:236-342 | Along every run what a proposal proposes never changes, a rejection is final, a failure can only be rejected, and numbers are not reused |
| `SelfSecurityTheorems.NamesComeFromApprovals` | app/api/self_security.py:236-262 | An administrator on a proposal was put there by that administrator's approval of it earlier in the run |
| `SelfSecurityTheorems.PatchNeedsApproval` | app/workers/self_security_tasks.py:382-472 | A prepared patch means an earlier approval by the named administrator, a target above the replaced version, and the specified text |
| `SelfSecurityReview.SurvivorsTargetAbove` | app/workers/self_security_tasks.py:189-200 | After a scan whose feeds can be stored, a pending proposal that survives is unchanged, starts from the installed version and targets above it |
| `SelfSecurityReview.ScanIsExact` | app/workers/self_security_tasks.py:107-200 | A scan whose feeds can be stored leaves exactly the installed packages, each with its version and reported CVEs, and rejects exactly the pending proposals of packages without findings or at another version |
| `SelfSecurityReview.NextKeepsCurrent` | app/workers/self_security_tasks.py:480-489 | Pending proposals keep starting from the installed version if and only if the step is not a rollback of a patch whose package has moved on |
| `SelfSecurityReview.RollbackCanApproveADowngrade` | app/workers/self_security_tasks.py:189-200 | A scan of a package and then a rollback of its prepared patch leave an approved proposal that is an upgrade if and only if its target is above the version the scan found |
| `SelfSecurityWitness.CurrencyCanBeLost` | app/workers/self_security_tasks.py:480-489 | A run of six steps from an empty database that ends with an approved proposal from 3 down to 2 |
| `SelfSecurityReview.NextKeepsUnique` | app/workers/self_security_tasks.py:300-309 | Pending proposals keep distinct targets per dependency if and only if the step is not a rollback beside a pending proposal with the same target |
| `SelfSecurityWitness.UniquenessCanBeLost` | app/workers/self_security_tasks.py:480-489 | A run from an empty database after which a rollback leaves two pending proposals for one target |
| `SelfSecurityReview.ProposeAllKeepsUnique` | app/workers/self_security_tasks.py:300-309 | While targets are distinct, the lookup for an existing proposal never fails and proposing keeps them distinct |
| `SelfSecurityReview.ProposeTwiceIsOnce` | app/workers/self_security_tasks.py:300-309 | Proposing again over the same rows changes nothing |
| `SelfSecurityReview.ProposingServesEveryone` | app/workers/self_security_tasks.py:270-327 | After proposing, every vulnerable, unexcluded dependency with an unsuppressed fix has a pending proposal at or above all of them |
| `SelfSecurityProposals.ProposedExactly` | app/workers/self_security_tasks.py:257-330 | Within 26 h of a successful scan each vulnerable package that is not excluded is blocked when it has no open fix, and otherwise has a pending proposal for the greatest of them, a new one exactly when none waited; other packages keep row and proposals, and without such a scan nothing changes |
| `SelfSecurityProposals.UnreadableFixBlocks` | app/workers/self_security_tasks.py:293-297 | In any state an open fix that cannot be read blocks its package, with that reason |
| `SelfSecurityReview.PinsExactly` | app/workers/self_security_tasks.py:416-428 | A line constrains a package if and only if, after blanks, it names it in any case of letters and goes on with one of the six operators |
| `SelfSecurityReview.PreparingIs` | app/workers/self_security_tasks.py:409-472 | Preparing pins exactly the constraining lines, keeps the file and the version as they were for the record, and fails when no line constrains the package |
| `SelfSecurityReview.BatchIsFull` | app/workers/self_security_tasks.py:345-348 | One batch takes at most fifty proposals that wait, and leaves none out when it takes fewer |
| `SelfSecurityReview.PatchIsExactAndSettles` | app/workers/self_security_tasks.py:416-437 | Every line that constrains the package becomes the exact pin, all others stay, and patching again changes nothing |
| `SelfSecurityReview.MergedPatchIsStable` | app/workers/self_security_tasks.py:409-472 | Once a prepared patch is merged, preparing the same update again succeeds, pins the target and changes no line |
| `SelfSecurityReview.RollbackUndoesPrepare` | app/workers/self_security_tasks.py:480-489 | Rolling a prepared patch back gives the approved proposal as it was; a failed preparation stays failed |
| `SelfSecurityWorker.ChooseFix` | app/services/self_security_scanner.py:155-170 | The loop returns the least readable candidate above the version, or none |
| `SelfSecurityWorker.ReadAdvisories` | app/services/self_security_scanner.py:124-197 | One finding per advisory, in order: the CVE it is about and the least version it lists as fixed for this package above the installed one |
| `SelfSecurityWorker.StoreFindings` | app/workers/self_security_tasks.py:136-169 | Upserts and the deletion of stale rows together leave the specified rows |
| `SelfSecurityWorker.Platform.ScanPlatform` | app/workers/self_security_tasks.py:51-249 | The whole scan: failed, undone or complete, as specified |
| `SelfSecurityWorker.Platform.ScanPackages` | app/workers/self_security_tasks.py:107-180 | All packages in order, or none when one cannot be stored |
| `SelfSecurityWorker.Platform.RejectSuperseded` | app/workers/self_security_tasks.py:189-200 | Rejects exactly the pending proposals without findings or for another version |
| `SelfSecurityWorker.Platform.ProposeUpdate` | app/workers/self_security_tasks.py:276-327 | One dependency: skipped, blocked, already proposed, newly proposed, or ambiguous |
| `SelfSecurityWorker.Platform.ProposePlatformUpdates` | app/workers/self_security_tasks.py:257-330 | Nothing without a successful scan in the last 26 h; undone when a lookup is ambiguous |
| `SelfSecurityWorker.Platform.AiValidateProposals` | app/workers/self_security_tasks.py:338-374 | Moves the picked proposals on whatever their assessment says |
| `SelfSecurityWorker.Platform.PatchLines` | app/workers/self_security_tasks.py:416-428 | The patched lines, and whether any line constrained the package |
| `SelfSecurityWorker.Platform.PrepareUpdate` | app/workers/self_security_tasks.py:409-472 | One proposal becomes prepared or failed |
| `SelfSecurityWorker.Platform.ApplyApprovedUpdates` | app/workers/self_security_tasks.py:382-406 | Prepares all approved proposals, or the one asked for |
| `SelfSecurityWorker.Platform.ApproveProposal` | app/api/self_security.py:236-262 | Approves only a proposal that waits for a decision |
| `SelfSecurityWorker.Platform.RejectProposal` | app/api/self_security.py:265-289 | Rejects from any status |
| `SelfSecurityWorker.Platform.ApplyNow` | app/api/self_security.py:292-319 | Accepts the request if and only if the queued task would change something, whatever the requirements file holds |
| `SelfSecurityWorker.Platform.RollbackProposal` | app/workers/self_security_tasks.py:480-489 | Takes a prepared patch back to approved |
| `SelfSecurityWorker.Platform.SuppressFinding` | app/api/self_security.py:173-198 | Suppresses one finding |
| `RateLimitTheorems.WindowBound` | app/core/rate_limit.py:66-84 | In every run, under any interleaving and loss of INCR and EXPIRE, an interval as long as the window lets at most twice the limit through, and with one end left out at most one less |
| `RateLimitTheorems.LifeBound` | app/core/rate_limit.py:66-84 | Each life of the bucket lets at most the limit through and lasts at least the window |
| `RateLimitExtremes.BoundIsTight` | app/core/rate_limit.py:66-84 | For every limit and window, a run that lets one less than twice the limit through in less than one window |
| `RateLimitExtremes.ReopensExactly` | app/core/rate_limit.py:66-95 | A bucket can start again if and only if its expiry is set or its first request still waits to set it |
| `RateLimitExtremes.LostStaysClosed` | app/core/rate_limit.py:87-95 | A bucket whose EXPIRE is lost never starts again, and once the limit is reached nobody gets through |
| `RateLimitExtremes.CrashLosesTheBucket` | app/core/rate_limit.py:66-95 | A first request that crashes between INCR and EXPIRE loses the bucket, whatever comes later |
| `RateLimitTheorems.RunKeepsInv` | app/core/rate_limit.py:66-84 | Lives of a bucket do not overlap, and requests let through or still waiting fit under its count and limit |
| `RateLimitTheorems.StepAdmitsExactly` | app/core/rate_limit.py:66-84 | In every reachable state a step lets one request through if and only if it carries the reply the request waits for and its place in the life is within the limit |
| `RateLimiter.Buckets.Dependency` | app/core/rate_limit.py:106-126 | One request: allowed, refused, or unavailable when a command it needs is lost |
| `RateLimiter.Buckets.DependencyIsARun` | app/core/rate_limit.py:66-84 | A request without interference is INCR, a pause and EXPIRE of the interleaved machine |
| `LoginTheorems.KthFailureWaits` | app/api/auth.py:86-125 | Since the last success, the k-th evaluated failure comes at least (k - threshold) lockouts after the one at the threshold, for passwords and codes in any mix |
| `LoginTheorems.GuessesPerInterval` | app/api/auth.py:86-125 | Between two successes an interval holds no more guesses beyond the threshold than lockouts fit into it |
| `LoginTheorems.RunKeepsInv` | app/api/auth.py:86-131 | The counter is the number of failures since the last reset, the lock is the last failure plus the lockout from the threshold on |
| `LoginTheorems.LoginNeedsBoth` | app/api/auth.py:92-131 | An attempt gets in if and only if the account is not locked, the password fits and, with the second factor on, a code fits the stored secret; a success clears counter and lock, a failure counts, anything else changes nothing |
| `LoginTheorems.AnswersAre` | app/api/auth.py:80-131 | Which of the five answers each attempt gets, and that only a success stamps the login and only a failure from the threshold on moves the lock |
| `LoginTheorems.LoginKeepsSecret` | app/api/auth.py:116-127 | Any login leaves a readable secret readable as itself, and a successful one leaves it protected |
| `LoginService.User.Login` | app/api/auth.py:72-141 | Answer and row afterwards for every attempt |
| `LoginService.User.RecordFailure` | app/api/auth.py:92-121 | Counts the failure and locks from the threshold on |
| `MfaSecrets.RevealUndoesProtect` | app/core/security.py:90-103 | A protected secret is revealed as itself, whatever colons it or its ciphertext contain |
| `MfaSecrets.RevealFails` | app/core/security.py:99-103 | Revealing fails on exactly the texts with the mark and no second colon |
| `ScanAuthorization.AuthorizedIsCanonical` | app/core/scan_authorization.py:20-50 | What is authorised is an aligned network within the host limit, and authorising it again gives the same |
| `ScanAuthorization.AuthorizedHosts` | app/core/scan_authorization.py:20-72 | Every address of an authorised network is an authorised host |
| `ScanAuthorization.AuthorizedSubnets` | app/core/scan_authorization.py:20-50 | Every subnet of an authorised network is authorised |
| `ScanAuthorization.AuthorizedExactly` | app/core/scan_authorization.py:27-52 | Authorised if and only if readable, within the limit, and inside a listed range with nothing unreadable before it |
| `ScanAuthorization.DeniedExactly` | app/core/scan_authorization.py:31-52 | When each refusal is given: size first, then a missing list, then an unreadable range before any that holds the target |
| `ScanAuthorization.AuthorizedHostExactly` | app/core/scan_authorization.py:55-74 | The same for a host |
| `ScanRanges.NetworkAuthorizedExactly` | app/core/scan_authorization.py:20-52 | A network is authorised if and only if it is readable, has at most `limit` addresses, and some listed range, with only readable ones before it, has no longer prefix and the same leading bits |
| `ScanRanges.HostAuthorizedExactly` | app/core/scan_authorization.py:55-74 | A host is authorised if and only if it is readable and such a range has its leading bits; it comes back in printed form |
| `ScanRanges.HostDeniedExactly` | app/core/scan_authorization.py:55-74 | When each refusal of a host is given |
| `ScanAuthorization.MaskIsRange` | app/core/scan_authorization.py:71-72 | The mask test of a host is the range test from network address to broadcast |
| `ScanAuthorization.SubnetIsInclusion` | app/core/scan_authorization.py:43-46 | The range test of a subnet holds if and only if the mask test accepts each of its addresses |
| `ScanAuthorization.MaskingAligns` | app/core/scan_authorization.py:12-17 | Clearing host bits gives the start of the address's run, and changes nothing there |
| `ScanAuthorization.BroadcastIsLast` | app/core/scan_authorization.py:31-34 | Setting the host bits gives the last address, so the number of addresses is the block size |
| `RiskEngine.ScoreIsBounded` | app/services/risk_engine.py:84-131 | Every score lies between 1 and 5 |
| `RiskEngine.MoreCvesMoreRisk` | app/services/risk_engine.py:85-95 | More CVEs never lower score or tier; the same CVEs in any order and number give the same result |
| `RiskEngine.CveScoreGrows` | app/services/risk_engine.py:85-95 | The CVE part does not fall when CVEs are added, ransomware included |
| `RiskEngine.NormsAreMonotone` | app/services/risk_engine.py:50-55 | Both norms are monotone under rounding halves to even and clamping |
| `RiskEngine.ScoreFollowsFactors` | app/services/risk_engine.py:58-67 | When no factor falls neither score nor tier falls, and when one rises the score rises |
| `RiskEngine.DeadlineFollowsTier` | app/services/risk_engine.py:70-81 | A higher tier never gets a later deadline, if and only if the lower one is not a low tier with the short known-exploited deadline against medium or high |
| `RiskEngine.MoreExposureLaterDeadline` | app/services/risk_engine.py:70-81 | An asset whose deadline moves from 14 to 90 days when it is opened to the internet |
| `RiskTables.ScalesAreFollowed` | app/services/risk_engine.py:12-22 | Known attribute values score their place on the scale, unknown and null ones 3, absent ones as their default does |
| `RiskTables.ClassificationFollowsScale` | app/services/risk_engine.py:23-28 | So does the classification in any case of letters; anything else counts as internal |
| `RiskTables.TierCountsThresholds` | app/services/risk_engine.py:58-67 | The tier is the number of thresholds 1.5, 2, 3 and 4 the score reaches |
| `RiskTables.DeadlinesAre` | app/services/risk_engine.py:70-81 | Each deadline in terms of score, end of life and known exploitation |
| `RiskTables.CvssIsNearest` | app/services/risk_engine.py:50-51 | A base score becomes the nearest of five steps, the even one of two, and at least one |
| `RiskTables.EpssIsNearest` | app/services/risk_engine.py:54-55 | So does an exploit probability |
| `RiskTables.WorstCveDecides` | app/services/risk_engine.py:85-95 | The CVE part is that of the worst single CVE, one more up to five with ransomware, and 1 without any; known exploitation counts 5 |
| `CsvImportTheorems.NamesAreNewExactly` | app/api/bulk_import.py:127-172 | For a header with the required columns: every import inserts names that are non-empty, distinct and new if and only if the column the second pass uses is `name`, or `Name` with no `name` column |
| `CsvImportTheorems.SafeHeadersKeepNamesNew` | app/api/bulk_import.py:127-271 | Under such a header every import keeps that promise |
| `CsvImportTheorems.UnsafeHeadersLetDuplicatesIn` | app/api/bulk_import.py:138-187 | Under any other header two rows that both insert one name get in |
| `CsvImportTheorems.ImportAccountsForRows` | app/api/bulk_import.py:181-271 | Created and errors add up to the data rows; the errors are the rows with extra cells or without a name; a dry run inserts nothing and shows at most ten |
| `CsvImportTheorems.ImportGoesThroughExactly` | app/api/bulk_import.py:115-172 | An import goes through if and only if header and size are usable, the first-pass names are distinct and, unless it is a dry run, none is in the store |
| `CsvImportTheorems.ScanFindsDuplicates` | app/api/bulk_import.py:127-154 | The first pass objects if and only if two rows have one non-empty name |
| `CsvImportContents.RowIsNamedExactly` | app/api/bulk_import.py:184-189 | A row is named by the stripped cell under the last-appearing spelling of `name`, in that spelling's last column; a short row or a file without such a column names nothing |
| `CsvImportContents.GoodRowsAreInserted` | app/api/bulk_import.py:181-271 | The rows no longer than the header and with a name give their names in order; nothing else is inserted, and a dry run shows the first ten of them |
| `CsvImportContents.RefusalsAre` | app/api/bulk_import.py:115-172 | Which refusal each file meets, in the order of the tests |
| `CsvImporter.AssetTable.PreScan` | app/api/bulk_import.py:127-144 | The first pass, refusing the row after the ten-thousandth |
| `CsvImporter.AssetTable.ImportRows` | app/api/bulk_import.py:181-271 | The second pass: what it inserts, reports and previews |
| `CsvImporter.AssetTable.ImportAssetsCsv` | app/api/bulk_import.py:112-294 | The endpoint's answer and the table afterwards; under a safe header the table's names stay distinct |

## Left out

- Network clients, connectors, webhooks, nmap, AI prompts and providers, the frontend, migrations and settings loading: what they deliver is arbitrary input here.
- Cryptography: a cipher is any pair of functions that undo each other, decoding a token gives its claims, and a password or code check is a verdict.
- Role gates, list endpoints, notifications and the overview counts: they would only add easy members.
- Concurrent database transactions: each endpoint or task call is atomic on the database. Only Redis commands interleave.
- Database columns: type and length checks, defaults on insert, `onupdate` of `last_seen`, and in-place mutation of JSON lists that the ORM does not see.
- Deletion of asset rows: an asset is known by its position in the table.
- ReconcileConvergence.Converges: speaks of reports that carry all eleven fields; `FieldConverges` says what holds without.
- ReconcileTheorems.RunKeepsInv: an alert's `created_at` is the clock when it is raised, not the start of its transaction.
- ReconcilerService.Reconciler.Enrich: software, CPEs and dependencies are sets, so the order that `list(set(...))` leaves is not modelled.
- Reported values: a text carries the address it spells, so no address parser is modelled; a MAC that spells none matches no row, where the database would refuse the query.
- InventoryGraphBuilder.InventoryGraph: display attributes of nodes and edges and the sort order of the queries are not modelled; the tables come in query order and ids are structured values.
- TokenTheorems.SingleUse: one clock for all processes and no eviction from the store; a key is gone at the instant its time is up, where a store may hold it for that last millisecond, which only spaces uses further.
- TokenBlocklist.Blocklist.Refresh: a `jti` or `sub` that is present but empty is treated like a missing one.
- TokenTheorems.UserRevocationReaches: the timestamp and its SETEX are one step.
- ComplianceTheorems.AuditConserves: rationale texts, evidence payloads and hashes are not modelled; a rule's check is an arbitrary verdict.
- ComplianceTheorems.CacheAgrees: percentages are exact hundredths rounded half to even, not floats.
- SelfSecurityTheorems.RunKeepsInv: CVSS, severity, descriptions, the summary alert of a scan, AI assessments and error messages are not modelled; dependencies are known by name, since the one caller scans one component.
- SelfSecurityTheorems.PatchNeedsApproval: the patch is kept as the old and new lines, not as their unified diff.
- SelfSecurityWorker.Platform.AiValidateProposals: the assessment is not modelled; whether it succeeds makes no difference to the status.
- RateLimitTheorems.WindowBound: a request counts at its last store command; one bucket is modelled, since buckets do not share state; the 429 body is not.
- LoginTheorems.KthFailureWaits: logins of one account do not overlap in time; an unknown user has no row to change.
- ScanAuthorization.AuthorizedExactly: reading and printing addresses is an arbitrary notation whose printed forms read back; IPv6 scope ids are not part of this model.
- RiskEngine.ScoreIsBounded: arithmetic is exact, in hundredths and reals, where the program uses floats; the texts of the recommended actions are not modelled.
- CsvImportTheorems.ImportAccountsForRows: rows come parsed, upload limits and encodings are not modelled, and of an imported row only the name is kept; text operations are those of ASCII.
