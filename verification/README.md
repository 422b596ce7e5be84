# Verification of the agent core and the race-data pipeline

This project models, in Dafny, the parts of the repository where a wrong step is costly or hard to
see, and proves what they promise for every input, every run and every interleaving.

- **Refresh-secret rotation** (`RotationProtocol`, `RotationSafety`, `RotationExchanges`,
  `RotationReplies`, `HostSource`, `ReferenceStore`). Any number of hosts and operators share one versioned record
  through compare-and-swap; a swap may succeed, conflict, or leave its caller in doubt and land at
  once, later or never; any process may die between two effects. A run is any list of events.
  `HostSource` holds the program itself, each method proved to walk along the events, so what is
  proved of all runs holds of it.
- **Write outcomes** (`SecretEncoding`, `WriteOutcomes`). The layers under the rotation turn every
  failure point into a verdict; each verdict is proved against what the server really made of the
  write, and shown to be one the rotation protocol allows.
- **Access-only issuance** (`IssuanceProtocol`, `IssuanceSafety`, `RefreshingProvider`). The
  provider's lock sections with slow work between them, revocations anywhere, and a wall clock that
  may say anything.
- **Resumable task runner** (`TaskModel`, `TaskRunner`). Durable checkpoint and volatile state are
  separate, and the process may die at every effect.
- **Fenced queue lease** (`LeaseProtocol`, `LeaseSafety`, `LeaseBudget`, `HostedLease`). Workers under the revision
  and generation contract the client checks, with delayed requests and lost answers.
- **Credential scan** (`LeakScan`). The scan of shared and cyclic results.
- **Tied finishes** (`FinishOrders`, `HistoricalPayouts`, `OfficialDetail`, `OfficialPayouts`,
  `PayoutTexts`). Two separately written enumerations equal one mathematical set, and payouts are
  accepted exactly when they match it, read from exactly the texts they are written as.
- **Five categories** (`CategorySelection`, `CategoryPicks`, `PageResponse`, `ProjectedResponse`).
  The server's selection against an order-free specification, and the browser's own check of it.
- **Canonical JSON** (`CanonicalJson`, `FirstOccurrences`, `HistoryBundle`). The canonical printer,
  a reader that inverts it, and the bundling built on it.
- **Chronological data** (`EvaluationRecords`, `EvaluationSplit`, `HistoricalPartitions`,
  `QueuePlanner`). Order-independent choices, leak-free splits, exact accounting and fair planning.
- **Atomic files** (`SyntheticSession`, `CustodyPackage`, `CustodyInstall`). A saved session and a
  host package, with a stop possible at every effect.

What the environment answers (a driver, a provider, an action, a verifier, a disk) is logged in ghost
fields that only the environment's own methods write, and results are stated against these logs in
both directions: what an answer must lead to, and what a result must have been led to by.

`CredentialIdentity` and `SecretRecords` define the shared entities, `SortedLists` what holds of any
sorted list. A digest or fingerprint is
modelled as the value it identifies (injective), a probability, odds or monotonic time as a real
number, a timestamp as an already read number.

Where a promise does not hold as it stands, a theorem says exactly when it does. Equal canonical
texts mean equal values except that a number too large to hold prints as `null` (`CanonicalExact`,
`OverflowIsNull`). In an untied race the official-page comparison looks only at positions one to
three; an accepted page would also pass the check of positions made of tied pages exactly when it is
tied or no position lies beyond the number of positions (`UntiedSkipsRankCheck`, `GapAccepted`). The
bound on exchanges per generation holds in every run exactly when no acceptable attempt id is given
out twice (`BoundNeedsDistinctIds`). A prediction keeps a session valid exactly below the series cap
or before the schedule passes (`PredictedIsValid`). A rollback can clear an interrupted installation
exactly when the receipt stands, nothing is half done and no successor of the receipt is waiting
(`RollbackGoesAhead`).

## Model

| member | source | states |
|---|---|---|
| `CredentialIdentity.SortedNamesSorts` | agent_core/credential_provider.py:30-39 | the normal form of a capability list has each name once, in code-point order, and the same names |
| `CredentialIdentity.CapabilitiesIdempotent` | agent_core/credential_provider.py:30-39 | normalising an already normalised capability list changes nothing, so stored and recomputed lists compare equal |
| `CredentialIdentity.MakeBindingValid` | agent_core/refresh_credentials.py:24-36 | every binding that can be constructed is trimmed and normalised, and rebuilding it from its own fields gives the same binding |
| `RotationSafety.NextSafe` | agent_core/versioned_secret_store.py:274-606 | one event of any process keeps the whole invariant (history, writes in flight, every process, every logged request) and only ever extends the history |
| `RotationSafety.VersionsNeverChange` | agent_core/versioned_secret_store.py:75-102 | in every run each version number has held exactly one well-formed record, and consecutive records follow only the allowed edges |
| `RotationSafety.RevokedIsFinal` | agent_core/versioned_secret_store.py:578-606 | once revoked, the history never changes again and the record holds no secret |
| `RotationSafety.GrantIsDurable` | agent_core/versioned_secret_store.py:374-423 | a returned grant is backed by its own ready record with the rotated secret right after its claim in the history, with the bound identity, scope and lifetime |
| `RotationSafety.AfterReadOk` | agent_core/versioned_secret_store.py:391-423 | reading back after a swap in doubt can only take a process for successful when the record is its own |
| `RotationReplies.AcceptableExactly` | agent_core/versioned_secret_store.py:349-372 | an answer is accepted exactly if it grants what is bound, the same capabilities by name, for at least the time asked, with a rotated secret that is not blank |
| `RotationReplies.BlocksAreExplained` | agent_core/versioned_secret_store.py:459-505 | in every run each blocked record has a logged request under its attempt whose reply its failure code tells: rejected, raised, unusable, or usable where the commit was in doubt |
| `RotationReplies.BlocksAnswerTheirClaim` | agent_core/versioned_secret_store.py:452-505 | where no acceptable attempt id is given out twice, that request is the one made at the version before the block |
| `RotationExchanges.ExchangesPerGeneration` | agent_core/versioned_secret_store.py:425-505 | over every interleaving in which no acceptable attempt id is given out twice, the requests made at a generation number at most one plus the not-applied recoveries recorded at it |
| `RotationExchanges.ClaimsPerGeneration` | agent_core/versioned_secret_store.py:285-313 | claims of one generation are bounded by its not-applied recoveries, counting a claim still possible |
| `RotationExchanges.GrantHasOneRequest` | agent_core/versioned_secret_store.py:349-423 | a returned grant is the answer to the only request ever made under its attempt, which presented the claimed secret |
| `RotationExchanges.SharedAttemptIdAsksTwice` | agent_core/versioned_secret_store.py:285-313 | for any list of attempt ids in which an acceptable one occurs twice, any binding and any secret, a run that gives out exactly these ids and asks twice under one claim |
| `RotationExchanges.BoundNeedsDistinctIds` | agent_core/versioned_secret_store.py:240-240 | a list of attempt ids keeps the bound in every run, at every generation, exactly when no acceptable id occurs in it twice |
| `HostSource.Source.Claim` | agent_core/versioned_secret_store.py:285-313 | the claim is owned exactly if its swap was acknowledged or, in doubt, one's own attempt is read back; every other answer gives its own error |
| `HostSource.Source.Block` | agent_core/versioned_secret_store.py:315-347 | a block is recorded exactly if its swap was acknowledged or a record of the asked state, attempt and failure code is read back; otherwise the error tells whether the store could be read |
| `HostSource.Source.CommitSuccess` | agent_core/versioned_secret_store.py:374-423 | success, exactly if the swap was acknowledged or one's own record is read back, means the committed record itself is in the history next to the owned claim |
| `HostSource.Source.SettleCommit` | agent_core/versioned_secret_store.py:397-423 | a commit in doubt counts exactly if reading back shows one's own record; a record still held is blocked as ambiguous before the error is raised |
| `HostSource.Source.ExchangeAndCommit` | agent_core/versioned_secret_store.py:452-505 | from an owned claim, by the provider's reply: a rejection is recorded as such, a request that raised as ambiguous, an unusable answer as invalid, each with its own error; a usable answer whose commit is acknowledged is returned |
| `HostSource.Source.RefreshAccess` | agent_core/versioned_secret_store.py:425-505 | another binding or a negative lifetime is refused before anything is read; otherwise the record first read, the claim, the reply and the swap after it decide: a grant is returned only when acceptable and backed by the history, and always when its commit is acknowledged; a rejection is reported only when the provider rejected |
| `HostSource.Source.Recover` | agent_core/versioned_secret_store.py:507-576 | a recovery succeeds exactly if the record read is the block of this attempt and version and the swap is acknowledged, and yields the next generation exactly with a rotated secret; every other case has its error |
| `HostSource.Source.Revoke` | agent_core/versioned_secret_store.py:578-606 | success returns the current record, revoked and without a secret; a swap not acknowledged is decided by the record read back |
| `ReferenceStore.InMemoryStore.Seed` | agent_core/versioned_secret_store.py:155-164 | seeding adds one ready record at version zero for a new binding and refuses an existing one |
| `ReferenceStore.InMemoryStore.CompareAndSwap` | agent_core/versioned_secret_store.py:174-192 | the reference store answers a swap as the protocol's store does: appended at the expected version, refused otherwise |
| `SecretEncoding.DecodeEncode` | agent_core/durable_secret_store.py:79-144 | decoding undoes encoding on every valid record |
| `SecretEncoding.EncodingIsStrict` | agent_core/postgres_secret_backend.py:23-39 | the encoding of every storable record passes the backend's strict check unchanged |
| `SecretEncoding.StrictRecordExact` | agent_core/postgres_secret_backend.py:23-39 | the strict check accepts exactly the encodings of storable records |
| `WriteOutcomes.Backend.Operate` | agent_core/postgres_secret_backend.py:87-169 | for every failure point: a returned record is committed and is the replacement, a conflict was refused for good, unavailable means never submitted; and by what the driver answered: a record exactly where nothing was raised and the one row holds it, a conflict exactly where the version check refused and the rollback went through, ambiguous only once a write was executed |
| `WriteOutcomes.ValidWriteExactly` | agent_core/postgres_secret_backend.py:100-109 | a write is asked for exactly as the encoding of a storable record of the binding, one version on |
| `WriteOutcomes.DeadlineBackend.Child` | agent_core/postgres_secret_process.py:22-61 | the child's message never claims more than the write's fate supports, its record is the fetched row, and undisturbed it says exactly the backend's verdict |
| `WriteOutcomes.DeadlineBackend.Operate` | agent_core/postgres_secret_process.py:108-198 | the same promises through a killed, failing or garbled child, and the backend's verdict where none of that happens; a quarantined backend submits nothing more and stays quarantined |
| `WriteOutcomes.DurableStore.CompareAndSwap` | agent_core/durable_secret_store.py:202-262 | the store's verdict matches the write's fate and is one the rotation protocol's store may give; undisturbed it is stored exactly for a fault-free write of the row, changed exactly for a refusal rolled back, and ambiguous for any other executed write |
| `WriteOutcomes.DurableStore.ReadRecord` | agent_core/durable_secret_store.py:167-200 | a returned record is the one encoded in the only row fetched; a read without faults of one storable row returns exactly that record; a read never gives a write outcome |
| `IssuanceSafety.OneCallerInside` | agent_core/refresh_credentials.py:161-166 | in every run at most one caller is between the two lock sections |
| `IssuanceSafety.RevokeIsFinal` | agent_core/refresh_credentials.py:119-123 | after a revoke, whatever follows, nothing is returned and the status stays revoked |
| `IssuanceSafety.TerminalIsFinal` | agent_core/refresh_credentials.py:125-131 | blocked and revoked never lead back to ready, and nothing is returned from them |
| `IssuanceSafety.CurrentTimeNeverBack` | agent_core/refresh_credentials.py:173-186 | a reading of time is at least every time used before, for any wall clock |
| `IssuanceSafety.SnapshotsAreSound` | agent_core/refresh_credentials.py:133-147 | in every run: the generation counts the refreshes returned, times used never decrease, each snapshot was usable when checked, and one without a refresh repeats the grant before it |
| `IssuanceSafety.UsableExactly` | agent_core/refresh_credentials.py:133-147 | a grant is usable exactly if it is of what is bound, has been issued, has not expired and lasts for the time asked |
| `IssuanceSafety.CurrentTimeExactly` | agent_core/refresh_credentials.py:173-187 | the time read is the later of the believed time carried forward by whole seconds and the wall clock, which a call given its epoch replaces |
| `IssuanceSafety.DecideAsksExactly` | agent_core/refresh_credentials.py:193-205 | the source is asked exactly if there is no cached grant, it has expired, or it expires before the time asked is over |
| `IssuanceSafety.FinishExactly` | agent_core/refresh_credentials.py:227-252 | a failed call leaves the provider blocked, or revoked, without a grant; a successful one leaves its grant, counts its refresh and believes its time |
| `IssuanceSafety.FailedCallIsFinal` | agent_core/refresh_credentials.py:125-131 | after one failed call nothing is ever returned again, whatever follows |
| `RefreshingProvider.Provider.RevokeNow` | agent_core/refresh_credentials.py:119-123 | the revoke section is one revoke event: the state is revoked and the grant gone |
| `RefreshingProvider.Provider.EnterSection` | agent_core/refresh_credentials.py:157-164 | a caller is refused exactly for an unbound scope, a revoked, unconfigured or blocked provider, or a busy one, and otherwise becomes the one inside |
| `RefreshingProvider.Provider.FinishSection` | agent_core/refresh_credentials.py:229-252 | revocation wins over failure and failure over success; a snapshot is given exactly to a call that neither failed nor was revoked |
| `RefreshingProvider.Provider.TakeSnapshot` | agent_core/refresh_credentials.py:149-252 | a whole call under interference: it asks the source exactly when the cached grant is missing or will not last, and once admitted it answers a snapshot exactly if nobody revoked, no clock, check or answer failed, and the grant it ends with is usable at its last time |
| `TaskModel.InvocationBound` | agent_core/model.py:30-38 | a sound checkpoint bounds the calls of a step by its attempts times one plus its not-applied reconciliations, one call each if not retry-safe, and completed implies every step truly done |
| `TaskModel.ExecutedAndSkipped` | agent_core/runner.py:244-394 | the executed and skipped steps of a completing run interleave to exactly the specification's steps in order |
| `TaskRunner.AttemptSound` | agent_core/runner.py:268-270 | recording one more attempt within the budget keeps the guarantees and leaves room for exactly one call |
| `TaskRunner.CallSound` | agent_core/runner.py:271-280 | a call made while the durable budget exceeds the calls keeps the durable guarantees, and takes back what was known of the step |
| `TaskRunner.ReconciledSound` | agent_core/store.py:150-170 | a reconciliation keeps the guarantees: resetting the attempts is paid for by its own record |
| `TaskRunner.Runner.AttemptOnce` | agent_core/runner.py:266-323 | the attempt is on disk before the call; only a retry-safe step with attempts left goes round again |
| `TaskRunner.Runner.AttemptStep` | agent_core/runner.py:265-323 | the retry loop succeeds only with an action that returned, with only this step's attempts changed; otherwise it ends blocked or failed on disk for the reason the last call gave, or dead because a save, a log entry or an exception cut it short |
| `TaskRunner.Runner.VerifyStep` | agent_core/runner.py:325-373 | success means the last call returned and the last verdict, if there is a verifier, is that it passed; anything else ends blocked on disk with the reason of that verdict, or dead because something was cut short |
| `TaskRunner.Runner.PerformSteps` | agent_core/runner.py:244-394 | a pass that succeeds accounts for every step: skipped if done before, executed otherwise |
| `TaskRunner.Runner.RunLocked` | agent_core/runner.py:199-394 | nothing is called from a terminal, unresolved, changed or unbound state; completed steps and decisions are never forgotten; a completing run's lists are exactly the rest and the done steps, and a run that stops, stops at a step whose last action or verdict is the recorded reason |
| `TaskRunner.Runner.ReconcileBlockedStep` | agent_core/store.py:109-176 | a reconciliation is accepted only for a blocked task and writes exactly the reconciled checkpoint, or leaves the file alone |
| `TaskRunner.Runner.Lifetime` | agent_core/runner.py:192-394 | over any sequence of runs and reconciliations, each dying anywhere, the bound on calls holds and a completed status means that every step's last call returned and was passed by its verifier, or was recorded as applied and verified |
| `LeaseSafety.CallsCovered` | agent_core/hosted_readonly_worker.py:72-83 | with any number of workers, delays, lost answers and deaths, calls of a step never exceed the accepted saves of its attempts |
| `LeaseSafety.OneWriterPerGeneration` | agent_core/hosted_queue.py:246-291 | all saves accepted in one lease generation come from the one process that claimed it, in rising revisions |
| `LeaseSafety.ReconciledLeaseIsFenced` | agent_core/hosted_queue.py:293-328 | after an expired lease is reconciled, no save of it or of an older lease is ever accepted |
| `LeaseSafety.NextSafe` | agent_core/hosted_queue.py:224-328 | every event of the lease contract keeps the invariant tying accepted saves, calls and leases together |
| `LeaseBudget.NextBudgeted` | supabase/migrations/20260925122122_agent_runtime_queue_lease.sql:62-297 | every claim, save, expiry and decision keeps the row's attempts within the limits, covering the accepted attempt saves, and every current lease equal to the row |
| `LeaseBudget.CallsWithinLimit` | agent_core/runner.py:226-323 | in every run on the leased store, calls of a step number at most its allowed attempts times one plus the not-applied decisions recorded for it |
| `LeaseBudget.CompletedMeansDone` | agent_core/runner.py:373-391 | in every run, a completed row has each step of the specification called, or decided as applied and verified |
| `HostedLease.LeaseStateStore.SaveRunning` | agent_core/hosted_readonly_worker.py:72-83 | an acknowledged save replaces the lease by the next revision carrying the saved progress; otherwise the worker is out; only a step it called can be saved as completed |
| `HostedLease.LeaseStateStore.SaveFinal` | agent_core/hosted_readonly_worker.py:72-83 | a terminal or blocking save gives the lease up, and acknowledged it was accepted |
| `HostedLease.LeaseStateStore.AttemptOnce` | agent_core/runner.py:268-280 | an action is called only after the save of its attempt was accepted, calls stay equal to saved attempts, and what the action ended in is what is reported |
| `HostedLease.LeaseStateStore.TryStep` | agent_core/runner.py:267-323 | how the retry loop ends is told by how its calls ended: all but the last raised, and it succeeds exactly if the last returned, blocks if that blocked or raised without being retry-safe, fails if the attempts are used up; at most the allowed attempts, more than one only if retry-safe |
| `HostedLease.LeaseStateStore.Conclude` | agent_core/runner.py:325-382 | a step is saved as completed exactly if it has no verifier or the verifier passed, unless something was cut short; a verdict against it, or a verifier that raised, blocks |
| `HostedLease.LeaseStateStore.RunTask` | agent_core/runner.py:222-394 | on the leased store an interrupted step blocks the task before any call; otherwise only steps still to do are called, a completed run means each of them returned and passed its verifier, and any other end is that of the first step that did not |
| `HostedLease.RunNext` | agent_core/hosted_readonly_worker.py:239-306 | one turn of the worker: nothing without authorisation; out of scope, with an unregistered or writing action, or interrupted, the task is blocked with no call; otherwise it ends as its actions and verifiers answered, unless a save, a log entry or an exception cut it short; the lease is always given up |
| `LeakScan.WithinMeans` | agent_core/credential_adapter.py:63-64 | the substring test holds exactly when the secret occurs at some position |
| `LeakScan.Scan.Contains` | agent_core/credential_adapter.py:55-110 | with the entered objects shared: true only for a leak; false leaves everything newly entered settled; the unentered objects decrease |
| `LeakScan.ContainsCredentialMaterial` | agent_core/credential_adapter.py:55-110 | on every finite graph, cyclic or shared, the scan ends and answers exactly whether credential material is reachable |
| `FinishOrders.PermutationsExact` | ml/historical_payouts.py:97-108 | the permutations of a group are exactly its repetition-free selections of that length |
| `FinishOrders.CombinationsExact` | ml/historical_payouts.py:97-108 | combinations built group by group are exactly the prefixes of orders that respect the ranking |
| `FinishOrders.PairsFromTriples` | ml/historical_official_detail.py:258-260 | with three ranked cars the payable pairs are exactly the first two of the payable triples |
| `HistoricalPayouts.ResultGroups` | ml/historical_payouts.py:57-94 | accepted exactly for readable rows without repetition and with competition ranks; the groups then list the ranking, each in car order |
| `HistoricalPayouts.GroupRanks` | ml/historical_payouts.py:88-94 | the running rank check accepts exactly competition ranks |
| `HistoricalPayouts.Outcomes` | ml/historical_payouts.py:97-108 | choosing and multiplying gives the group-by-group combinations, the empty set when cars are too few |
| `HistoricalPayouts.ParseWritten` | ml/historical_payouts.py:111-125 | reading back the written form of different cars gives the cars, as a literal combination |
| `PayoutTexts.ParseOrderedExact` | ml/historical_payouts.py:111-125 | a cell is read as these cars exactly if it is the different cars joined by hyphens, or the spreadsheet date made of them |
| `PayoutTexts.MoneyExact` | ml/historical_payouts.py:128-131 | an amount is accepted as a number exactly if it is that positive number written in plain digits or with a comma before every three |
| `PayoutTexts.AwardedRankExact` | ml/historical_payouts.py:69-85 | a rank is awarded exactly to a digit within the field without a status, and none exactly to a recorded non-finish |
| `PayoutTexts.RankingExact` | ml/historical_payouts.py:57-87 | a car has a rank exactly if a row gives it that rank in its cells |
| `PayoutTexts.RewrittenExact` | ml/historical_payouts.py:152-155 | the cells recorded as rewritten are exactly those written as a date |
| `HistoricalPayouts.Settle` | ml/historical_payouts.py:134-159 | accepts exactly the payable combinations without repetition, each with a valid amount, or exactly one explicit refund when nothing is payable |
| `OfficialDetail.TiedRankOutcomes` | ml/historical_official_detail.py:102-127 | answers exactly for competition ranks with enough ranked cars, with exactly the prefixes of orders that respect them |
| `OfficialDetail.EnumerationsAgree` | ml/historical_official_detail.py:102-127 | the two enumerations give the same set on every ranking, and the second refuses exactly where the first is empty for lack of cars |
| `OfficialPayouts.OrderedPayouts` | ml/historical_official_detail.py:82-99 | a payout list is accepted exactly when it has rows, all readable, none paying a combination twice |
| `PayoutTexts.ReadableExact` | ml/historical_official_detail.py:88-97 | a page row is read as these cars and this amount exactly if it is shown, the cars are different and of the roster, and both are written as such |
| `OfficialPayouts.PositionsTellTies` | ml/historical_official_detail.py:266-266 | counting different positions tells exactly whether two ranked cars tie |
| `OfficialPayouts.UntiedTriple` | ml/historical_official_detail.py:266-269 | in an untied race with positions one to three held, those three cars are the one payable triple |
| `OfficialPayouts.UntiedCompetition` | ml/historical_official_detail.py:115-121 | an untied ranking has competition ranks exactly when its highest position is at most the number of ranked cars |
| `OfficialPayouts.PayoutsAgree` | ml/historical_official_detail.py:259-277 | both lists are taken exactly when usable and together they pay exactly what the finish makes payable and nothing to a withdrawn car |
| `OfficialPayouts.UntiedSkipsRankCheck` | ml/historical_official_detail.py:266-276 | for every page: it passes the check made of tied pages exactly when it is accepted and is tied or has no position beyond the number of positions |
| `OfficialPayouts.TopThreeAccepted` | ml/historical_official_detail.py:259-269 | whatever an untied finish holds below the third position, the page paying its first three cars is accepted |
| `OfficialPayouts.GapAccepted` | ml/historical_official_detail.py:266-269 | a page with rider rows at positions 1, 2, 3 and 5 and its payout rows is accepted and would not pass the check made of tied pages |
| `CategorySelection.PermutationCount` | ml/category_selection.py:31-31 | the number of ordered selections is the falling factorial, so the expected table has n(n-1)(n-2) combinations |
| `CategorySelection.ValidateModelScores` | ml/category_selection.py:28-57 | accepted exactly for a valid table, with its count of known odds |
| `CategorySelection.TableIsComplete` | ml/category_selection.py:31-33 | a valid table lists every ordered triple of different riders |
| `CategoryPicks.RankingRanks` | ml/category_selection.py:63-63 | the stable sort puts every row before all rows less probable, and equals in table order |
| `CategoryPicks.UsedMeansTop` | ml/category_selection.py:68-71 | excluding everything picked so far excludes exactly the top three, since the bands do not meet |
| `CategoryPicks.SelectModelCategories` | ml/category_selection.py:60-96 | a selection exactly for a valid table, and then in each scope the rows with exactly zero, one and two better ones |
| `ProjectedResponse.OneBandEach` | ml/category_selection.py:12-18 | odds from twenty up lie in exactly one band, lower ones in none |
| `PageResponse.Validate` | model-web-response.js:29-46 | the page's check passes exactly the displayable responses: quality, names, ranks, bands, order, uniqueness, totals |
| `ProjectedResponse.KeyOkExact` | model-web-response.js:38-40 | the page takes a key exactly if it is how three different riders of the race are written |
| `ProjectedResponse.BandsAgree` | model-web-response.js:42-42 | the page and the server draw the same bands, each from its start up to the next |
| `ProjectedResponse.SelectionIsDisplayable` | ml/model_web_response.py:24-43 | every selection from a valid table, once projected, satisfies all the page asks |
| `ProjectedResponse.ProjectedExactly` | ml/model_web_response.py:24-43 | each category shows its best rows in order, with their own key, probability and odds; it is complete exactly with three candidates, and otherwise its note tells whether any odds are known |
| `ProjectedResponse.SelectAndDisplay` | model-web-response.js:29-46 | end to end, a response is displayed exactly for valid tables, and it shows the best rows of each scope |
| `CanonicalJson.SortedKeysSorts` | prospective-history-bundle.js:39-39 | sorting an object's keys keeps exactly the keys in strictly ascending order |
| `CanonicalJson.BeforeExact` | prospective-history-bundle.js:39-39 | keys are ordered by their first differing code unit, and a key comes before its continuations |
| `CanonicalJson.ReadEscaped` | prospective-history-bundle.js:41-41 | reading an escaped string gives it back whatever follows its closing quote |
| `CanonicalJson.ReadPrinted` | prospective-history-bundle.js:36-42 | reading the text of a value gives the value whatever follows |
| `CanonicalJson.ReadCanonical` | prospective-history-bundle.js:36-42 | reading the canonical text gives the value with its keys in order |
| `CanonicalJson.CanonicalExact` | prospective-history-bundle.js:36-42 | canonical texts are equal exactly for the same value up to key order, numbers by printed form |
| `CanonicalJson.CanonicalExactWhenFinite` | prospective-history-bundle.js:36-42 | without numbers too large to hold, equal canonical texts mean exactly the same value |
| `CanonicalJson.OverflowIsNull` | prospective-history-bundle.js:41-41 | a number too large to hold is confused with null, also inside a record |
| `HistoryBundle.Collector.Visit` | prospective-history-bundle.js:10-34 | a visit appends exactly the records of the value, in order, to the shared list |
| `HistoryBundle.ViewExact` | prospective-history-bundle.js:18-31 | an object is entered at its dry-run payload, else its list of records, else its wrapped record, and is itself a record exactly if it names a race and has none of these |
| `HistoryBundle.CollectedAreRecords` | prospective-history-bundle.js:20-31 | only well-formed objects with a text race id that wrap nothing are collected, and each collects itself |
| `HistoryBundle.DedupeExact` | prospective-history-bundle.js:44-54 | keeps exactly the first record of each class of equal values, in order |
| `HistoryBundle.EachRecordKeptOnce` | prospective-history-bundle.js:44-54 | every record given has the same value as exactly one kept record |
| `HistoryBundle.BuildBundle` | prospective-history-bundle.js:56-80 | input count is kept plus removed, and removed counts exactly the repetitions |
| `HistoryBundle.RebundlingIsStable` | prospective-history-bundle.js:56-80 | bundling a written bundle again gives the same records and removes nothing |
| `FirstOccurrences.FirstsCover` | prospective-history-bundle.js:44-54 | for any equivalence, what is kept comes from the list and represents everything in it |
| `EvaluationRecords.Prepare` | ml/evaluation_protocol.py:104-131 | the report is the order-free one: the latest record of each race without conflicts, every exclusion counted by its reason, the rest duplicates |
| `EvaluationRecords.OrderDoesNotMatter` | ml/evaluation_protocol.py:104-131 | any reordering of the input gives the same report |
| `EvaluationRecords.EveryRecordAccounted` | ml/evaluation_protocol.py:122-131 | excluded plus selected plus duplicates are exactly the input records |
| `EvaluationSplit.CutsInRange` | ml/evaluation_protocol.py:139-143 | with five distinct times the cut points never index out of range and are strictly ordered |
| `EvaluationSplit.CutsExact` | ml/evaluation_protocol.py:142-143 | from five distinct times the cuts are three and four fifths of them, rounded down; the lower limits never act |
| `EvaluationSplit.PartitionsDoNotLeak` | ml/evaluation_protocol.py:144-152 | partitions are disjoint and every label precedes the predictions of every later partition |
| `EvaluationSplit.SplitRecords` | ml/evaluation_protocol.py:138-162 | a split exactly when there are five distinct times and enough in each part; the purged make up the remainder |
| `HistoricalPartitions.AuditRecords` | ml/historical_audit.py:14-55 | the audit keeps the first record of each race and flags exactly the races with conflicting content or varying sources |
| `HistoricalPartitions.UsableExactly` | ml/historical_training.py:54-75 | a record is usable exactly if nothing speaks against it, every later record of its race agrees with the first in content and sources, and an attested review was made of exactly what it says |
| `HistoricalPartitions.PlacedExactly` | ml/historical_training.py:107-112 | a usable record goes where both its features and its label belong, and is out exactly when the label straddles the boundary |
| `HistoricalPartitions.PreparePlan` | ml/historical_training.py:35-124 | a plan exactly for boundaries in order and reviews naming each race once; every intake item is in exactly the partition its feature time says, or excluded where anything speaks against it or no review attests this very record; no label reaches a later partition |
| `HistoricalPartitions.AccountedExactly` | agent_core/historical_preparation.py:119-130 | prepared plus excluded are the converted records exactly when no race id occurs twice |
| `HistoricalPartitions.ExpectedReport` | agent_core/historical_preparation.py:94-117 | a report exactly when every record has an id and a canonical text, no id repeats, the recorded digests are those of the records, and the plan can be made; its accounting adds up and nothing leaks |
| `QueuePlanner.PlanQueue` | agent_core/queue_planner.py:72-117 | a plan exactly for a scoped, valid queue without repeated identities; each entry is decided by how many eligible ones came before |
| `QueuePlanner.FirstEligibleProposed` | agent_core/queue_planner.py:97-114 | claims are proposed for exactly the first eligible entries that fit, and waiting for capacity means earlier entries took every slot |
| `QueuePlanner.ReasonsExact` | agent_core/queue_planner.py:97-114 | each reason is given exactly for its own condition on the entry and on the claims proposed before it |
| `QueuePlanner.CountsExact` | agent_core/queue_planner.py:94-94 | what counts against the capacity is exactly the number of running entries, and against the slots that of eligible ones |
| `QueuePlanner.CapacityKept` | agent_core/queue_planner.py:94-114 | running plus proposed never exceed the larger of capacity and running |
| `QueuePlanner.ListingDoesNotMatter` | agent_core/queue_planner.py:96-96 | the plan does not depend on the order the entries were listed in |
| `QueuePlanner.OneDecisionEach` | agent_core/queue_planner.py:96-117 | one decision for each entry, in queue order |
| `SyntheticSession.PredictedIsValid` | ml/synthetic_workbench.py:98-122 | a prediction keeps the session valid exactly below the series cap or before the schedule passes |
| `SyntheticSession.PredictedExactly` | ml/synthetic_workbench.py:98-122 | a prediction adds one snapshot of a race not yet started, numbered by its series and size, keeps all earlier ones, and starts the next series exactly when the schedule has passed |
| `SyntheticSession.GeneratedExactly` | ml/synthetic_session.py:41-47 | a snapshot's number tells its series, none beyond the present one, and that one at the present schedule |
| `SyntheticSession.SessionStore.Save` | ml/synthetic_session.py:116-149 | the file is always the old session or the valid new one; the answer is told by the effects: acknowledged exactly if all went well, uncertain exactly if the replacement was reached; after a failure every later save refuses and changes nothing |
| `SyntheticSession.Workbench.Commit` | ml/synthetic_workbench.py:69-73 | memory takes the new session exactly when it was acknowledged |
| `SyntheticSession.Workbench.Predict` | ml/synthetic_workbench.py:98-122 | a prediction is refused exactly for a wrong size or a full session, is committed whole or not at all, and fails its own check only at the series cap |
| `SyntheticSession.Workbench.Settle` | ml/synthetic_workbench.py:137-147 | a result is recorded once for a known snapshot, keeping the session valid |
| `SyntheticSession.Workbench.Select` | ml/synthetic_workbench.py:75-78 | selecting refuses exactly unknown snapshots and keeps the session valid |
| `SyntheticSession.Lifetime` | ml/synthetic_session.py:58-149 | over any operations, deaths and reopenings the file is absent or valid, and is the established session or the one whose save was left in doubt; an open workbench has the established session in memory, and until a save fails the file is that session |
| `SyntheticSession.EstablishedSource` | ml/synthetic_session.py:58-149 | the established session is the last acknowledged one, or one left in doubt since then that an opening found |
| `SyntheticSession.Operate` | ml/synthetic_workbench.py:57-147 | one operation is refused exactly for its own reasons, and memory becomes the session it asked for exactly if the save was acknowledged; after a failed save neither file nor log changes |
| `CustodyPackage.RemoveOwned` | review/secret_custody_h2.py:368-397 | a rollback stops on an unchanged host or removes only objects matching the receipt and the fixed contents; once it goes ahead it finishes exactly if no effect fails, and then the host is fresh |
| `CustodyPackage.ValidatesExactly` | review/secret_custody_h2.py:368-374 | a rollback goes ahead exactly on a receipt right and alone, an account of its own, and every object absent or exactly as installed |
| `CustodyPackage.RemoveFiles` | review/secret_custody_h2.py:375-383 | the first half removes only validated files and directories and ends with the unit gone |
| `CustodyPackage.RemoveOwnedUser` | review/secret_custody_h2.py:384-390 | the user is removed only after the receipt names it and it is checked again |
| `CustodyInstall.RollbackGoesAhead` | review/secret_custody_h2.py:260-311 | after an installation stopped anywhere a rollback goes ahead exactly when the receipt stands, no object is half done, and the receipt's successor is not waiting to be put in place |
| `CustodyInstall.Installer.Install` | review/secret_custody_h2.py:337-359 | stopped after any number of effects, the next one untouched or half done, it leaves exactly that host; unstopped, everything verifies |
| `CustodyInstall.InstallThenRollBack` | review/secret_custody_h2.py:337-397 | installation and rollback each stopping anywhere: the host stays as it was left exactly where the stop cannot be cleared, otherwise only matching objects go, and a finished rollback leaves it fresh |

## Left out

- Transports, SQL, process and lock primitives, threads and signals: each is modelled only by its possible outcomes.
- The hosted queue's server side: its revision, generation and expiry checks are an assumed contract, and so is that an operator who blocks or queues a task again retains its attempts and completed steps; expiry is an event, not a time, and due times and the count of claims do not restrict claiming.
- `HostedLease.RunNext`: artifacts and the activity ledger's contents are left out; whether a task is in scope is given.
- Task runner: the contents of artifacts and of the activity ledger, diagnostics, timestamps and the task lock between runners on one directory; a state file without a fingerprint carries no guarantee and no run acts on it.
- Rotation: `assert_available`, redaction of exceptions and safe dictionaries; a write in doubt lands at most once.
- Write outcomes: key derivation and JSON transport of the record; statement and lock timeouts are faults like any other.
- `RefreshingProvider.Provider.TakeSnapshot`: argument type checks are not modelled; the required capabilities arrive normalised.
- Credential scan: mappings that produce new objects on each traversal; the wrapper around the scan.
- `HistoricalPayouts.ResultGroups`: does not return the participant list or the change records with digests, which copy cells of the rows it accepts.
- Historical payouts: the merging of files in `normalize`; settlement outcomes are keyed by combination instead of sorted.
- Official page: reading of HTML, receipts and rider rows; rows arrive with different cars and positions one to nine, as that reading establishes.
- `CategorySelection.ValidateModelScores`: the second form of a combination and the fields a row may not carry are not modelled, each a single refusal.
- Category selection: probabilities and their sum are real numbers; the page asks only that a note is not blank.
- Page response: identity, time and version fields; the quality block carries the counts of the selected table.
- Canonical JSON: the order in which a script engine lists keys does not matter, since keys are sorted; prototype-named keys are ordinary keys.
- Evaluation: the field checks of one record are a given verdict; equal canonical contents are taken to be equal records; the cut points use exact fifths.
- `HistoricalPartitions.AuditRecords`: the field checks of one record are one verdict; what is modelled is how records of one race are compared.
- `HistoricalPartitions.PreparePlan`: the checks of feature columns are part of that verdict, and the texts of a review are one flag; the final sorting of each partition is left out.
- `SyntheticSession.Lifetime`: the size limit is an arbitrary refusal, removal of the partial file and the checks made when a directory is opened are not modelled; nobody else writes the file.
- `CustodyPackage.RemoveOwned`: platform, parent-directory and process checks are left out; nobody else changes the objects between a check and its deletion.
- Network collection, model training, previews, command lines and deployment packages.
