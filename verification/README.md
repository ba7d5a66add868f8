# Doug's ledgers, parsers and repairs, verified

Doug reviews pull requests. The parts of it that keep state over time, or that turn text into
facts other code trusts, live in `api/doug`. This project models those parts in Dafny and proves
what the code's own comments say every run must preserve.

- **ReviewQueue** and **OutcomeLane** are the two leased job queues. Each SQL transaction is one
  atomic step over a table; runs are arbitrary sequences of steps in which workers may present any
  (id, generation) pair or any batch they were ever handed, however stale. The classes `ReviewJobs`
  and `OutcomeQueue` are the modules' functions, proved to take exactly those steps. **Adjudicate**
  classifies the outcome lane's batches.
- **AdjudicationLog** is the append-only log of rulings on findings: a graph of `supersedes` links,
  resolved by a visiting/visited walk and extended by compare-and-append, with writers on different
  findings interleaving freely. **Scorecards** scores frozen packs against it.
- **DiffText**, **Hunks** and **Coverage** are the diff assembly and the account of what a budget-cut
  read saw: a printer and a parser over one text, with exact offsets.
- **Convergence** is the finding diff between two reads: multiset budgets pair rows up, multiset
  evidence decides the rest. **Evidence** runs from two printed diffs, through what is stored of their
  reads, to the finding diff.
- **CheckRunCut** is the cut an oversized check-run summary takes.
- **Migration5** and **Backfill** are two table repairs: one survives crashes, races between its
  statements and the service still inserting, the other is undone exactly under others' work.
- **YamlSubset**, **YamlPrinting** and **YamlParser** are the workflow parser: its meaning on line
  sequences, its inverse, and the in-place parser over an array. **YamlTokens** gives the grammars its
  scans accept, **YamlNoise** what never matters to it.
- **RulingsBlock** finds the one fenced block of rulings in a description. **Carry** follows a ruling
  from the stored reads it is anchored to, through the offers and the model's answer, to the label on
  a repeated finding; **Slugs** tells which rule names are one.

Clocks, hashes and the model's answers are parameters. Time is an integer number of seconds read
once per step. A SHA-256 digest is an injective function of its input.

## Where the code and its comments differ

The model follows the code.

- `api/doug/convergence.py:98-103` says a re-reported finding carries `code_changed`; the entry built
  at `api/doug/convergence.py:197` does not. The headline of `api/doug/check_run.py:789-796` therefore
  always has equal numerator and denominator (`Convergence.HeadlineDenominatorIsItsNumerator`).
- `api/doug/ingest.py:299-302` says no hold is reported once the sweep would revive the row. In the
  instant at which exactly 3600 seconds have passed the sweep still refuses and no hold is reported
  (`ReviewQueue.BoundaryRowIsRefusedWithoutHold`; only then,
  `ReviewQueue.HoldExplainsRefusalExceptAtTheBoundary`).
- `api/doug/reader.py:1281-1301` names the file a budget cut, or indexes it. A budget that stops one
  or two characters before the end of the diff does neither for the last file
  (`Coverage.IndexedIsSentMinusCut`, `Coverage.OneCharacterShortIsTheGap`), and the finding diff then
  takes that file to have left the diff (`Evidence.CarriedExactlyWhenUnchanged`).
- `_whole_lines` (`api/doug/check_run.py:983-1011`) promises to end on a line boundary; called with a
  cut inside the first line it returns half a line (`CheckRunCut.HelperCutsTheFirstLine`). The render
  that calls it keeps whole lines whenever its first line fits (`CheckRunCut.RenderKeepsWholeLines`).
- `api/doug/example_pack_eval.py:224` drops an overlay whose pack is unknown, where scoring all packs
  at once refuses it (`Scorecards.WholeIsScorableExactlyWhen`).
- `api/doug/migrations.py:119-141` re-points the jobs of deleted verdicts, but a job whose verdict
  lacks a repository id or a head SHA loses its verdict although its group has a keeper, because
  GROUP BY treats missing values as equal and the join does not
  (`Migration5.MissingColumnLosesTheVerdict`; exactly then, `Migration5.KeeperIsFirst`).
- `api/doug/reader.py:2137-2145` bounds what one ruling labels by the findings it anchors; two rulings
  on one anchor each get the whole bound (`Carry.SharedAnchorOverflows`,
  `Carry.StoredFindingsBoundExactlyWhen`).

## Model

| member | source | states |
|---|---|---|
| ReviewQueue.EveryTokenIsHandedOutOnce | api/doug/ingest.py:337-391 | In every interleaving, no two claims are ever answered with the same (id, generation) token. |
| ReviewQueue.EachClaimEndsAtMostOnce | api/doug/ingest.py:442-454 | A claimed generation leaves `running` at most once, whoever ends it and however many stale holders try. |
| ReviewQueue.OneTokenTakesEffectOnce | api/doug/ingest.py:457-599 | Of any two release/complete/supersede/fail calls with one token, the later is told False and changes nothing. |
| ReviewQueue.ReclaimedHolderIsFenced | api/doug/ingest.py:394-454 | Once a row has been claimed again, every later call of the earlier holder changes nothing. |
| ReviewQueue.RunKeeps | api/doug/ingest.py:105-599 | Over any stretch of any run a row keeps its PR and SHA, its generation never falls, a new claim raises it, and a done row is frozen. |
| ReviewQueue.DoneIsAbsorbing | api/doug/ingest.py:479-531 | A done row stays identical for the rest of every run. |
| ReviewQueue.EveryReachableTableIsSound | api/doug/ingest.py:105-599 | In every reachable table each SHA has one row, attempts are below the cap unless failed and equal to it when failed, and each status determines the timestamps, error and verdict that go with it. |
| ReviewQueue.AttemptsCountFailures | api/doug/ingest.py:554-599 | Between revives a row’s attempts grow by exactly the failures recorded against it. |
| ReviewQueue.EnqueueCoversItsSha | api/doug/ingest.py:105-283 | With any steps of any workers between the colliding insert and the revive, the SHA ends pending, running or done, except exactly when the sweep meets an unexpired cooloff. |
| ReviewQueue.FreshInsertIsTheOnlyPendingSha | api/doug/ingest.py:157-187 | A first observation is queued and every other pending SHA of that PR is superseded. |
| ReviewQueue.StepFrame | api/doug/ingest.py:157-599 | Every transaction leaves every row but its own subjects exactly as it was: an insert only retires pending rows of the same PR and another SHA, keeping all but their status and finish time; a revive, a claim and a token’s call touch one row; a reclaim only expired ones. |
| ReviewQueue.HoldExplainsRefusalExceptAtTheBoundary | api/doug/ingest.py:286-334 | The reported hold and the sweep refusal agree, except in the one instant at which the wait is exactly 3600 seconds. |
| ReviewQueue.BoundaryRowIsRefusedWithoutHold | api/doug/ingest.py:286-334 | That instant: a failed row finished exactly 3600 seconds ago is refused, no hold is reported, and one second later the sweep revives it. |
| ReviewQueue.ReviveStartsOver | api/doug/ingest.py:118-122 | Only a revive changes a row’s base SHA or lowers its attempts, and it starts a failed or superseded row over with its own observation. |
| ReviewQueue.StepRank | api/doug/ingest.py:357-434 | Against a row that stays pending, a claim removes one row from ahead of it, an effective release adds at most one, and no other step adds any. |
| ReviewQueue.ClaimsWhileWaitingAreBounded | api/doug/ingest.py:337-434 | While a row waits, the claims are at most its rank plus the effective releases. |
| ReviewQueue.RowIsServedWithinItsRank | api/doug/ingest.py:337-434 | No starvation: with advancing clocks and no releases, a pending row is claimed or superseded within rank + 1 claims. |
| ReviewQueue.ReleaseOvertakes | api/doug/ingest.py:457-476 | Why releases are excluded: one puts a row back ahead of a row that had none ahead. |
| ReviewQueue.FailuresFitTheBudget | api/doug/ingest.py:195-283 | From any point of a run in which only the sweep revives this PR and SHA, whatever happens to other rows, recorded failures never exceed what the remaining arming and the hours left allow. |
| ReviewQueue.FailuresPerCooloffWindow | api/doug/ingest.py:234-283 | Over T seconds in which the row is never superseded and only the sweep revives it, at most MAX_ATTEMPTS * (T/3600 + 1) failures are recorded against it; other rows may be revived live. |
| ReviewQueue.ReclaimClearsExpiredLeases | api/doug/ingest.py:394-439 | After a reclaim no running row has an expired lease, and no attempt or generation was spent. |
| ReviewQueue.ReviewJobs.Enqueue | api/doug/ingest.py:105-283 | Inserts, or revives on a collision on the terms of the trigger; anything but "reconcile" leaves the SHA covered, and rows of other PRs stay exactly as they were. |
| ReviewQueue.ReviewJobs.ClaimOldest | api/doug/ingest.py:337-391 | Takes the oldest pending row and hands out a token that holds; nothing exactly when nothing is pending. |
| ReviewQueue.ReviewJobs.ReclaimStalled | api/doug/ingest.py:394-439 | Leaves no stalled claim and changes nothing else. |
| ReviewQueue.ReviewJobs.ReleaseJob | api/doug/ingest.py:457-476 | Re-pends the row in its old place exactly when the token holds. |
| ReviewQueue.ReviewJobs.CompleteJob | api/doug/ingest.py:479-531 | Marks the row done, clears its error and records an owed comment exactly when the token holds. |
| ReviewQueue.ReviewJobs.SupersedeJob | api/doug/ingest.py:534-551 | Retires the row exactly when the token holds. |
| ReviewQueue.ReviewJobs.FailJob | api/doug/ingest.py:554-599 | Spends one attempt exactly when the token holds, keeping the error up to 500 characters; failed at the cap, otherwise to the back of the queue. |
| OutcomeLane.EveryReachableLedgerIsConsistent | api/doug/outcome_queue.py:214-379 | In every run, stale batches included: identities are unique, done jobs are the published ones, every published row has its job, batches in workers’ hands are genuine. |
| OutcomeLane.NoRunMeetsTheIndex | api/doug/outcome_queue.py:324-379 | No settlement in any run meets the accounting error or the unique outcome index. |
| OutcomeLane.AdjudicationAccountsForBatch | api/doug/outcome_queue.py:333-342 | What the adjudicator returns for a claimed batch accounts for every claimed job exactly once. |
| OutcomeLane.AccountsExactlyWhen | api/doug/outcome_queue.py:333-342 | The accounting guard passes exactly what decides every job of the batch, none of them twice, and nothing else. |
| OutcomeLane.IndexIsNeverHit | api/doug/migrations.py:228-230 | While a batch is still held, none of its outcome rows has been published. |
| OutcomeLane.DoneMeansExactlyOneOutcome | api/doug/outcome_queue.py:344-379 | In every run a job is done if and only if exactly one outcome row carries its identity. |
| OutcomeLane.DoneCountEqualsPublishedCount | api/doug/outcome_queue.py:344-379 | In every run the number of done jobs equals reverts plus clean plus censored rows. |
| OutcomeLane.RunKeeps | api/doug/outcome_queue.py:214-379 | Over any stretch of any run identities stay, generations only grow, outcome rows are only appended. |
| OutcomeLane.TerminalIsAbsorbing | api/doug/outcome_queue.py:286-305 | Done and failed jobs never change again. |
| OutcomeLane.LostBatchChangesNothing | api/doug/outcome_queue.py:271-317 | A fail or settle call with any lost claim leaves jobs and outcomes exactly as they were. |
| OutcomeLane.EachBatchTakesEffectOnce | api/doug/outcome_queue.py:308-379 | Of all fail and settle calls with one handed-out batch at most one takes effect. |
| OutcomeLane.AttemptsAreCapped | api/doug/outcome_queue.py:286-317 | In every run attempts are below the cap unless the job is failed. |
| OutcomeLane.FailureSpendsAttempts | api/doug/outcome_queue.py:286-317 | A failed batch spends exactly one attempt of each of its jobs, which is failed with a finish time exactly when that reaches the cap and pending again otherwise, and touches no other row. |
| OutcomeLane.SettlementDecidesEveryJob | api/doug/outcome_queue.py:344-378 | A settlement finishes each job whose revert date parses and spends one attempt of each other one, with its own reason; no other row moves. |
| OutcomeLane.AttemptsCountFailures | api/doug/outcome_queue.py:286-379 | In every run a job’s attempts are exactly the failures recorded against it, by failed batches and by refusals. |
| OutcomeLane.FailedExactlyAtTheCap | api/doug/outcome_queue.py:286-317 | In every run a job is failed exactly when MAX_ATTEMPTS failures were recorded against it, so no batch is drained for ever. |
| OutcomeLane.ClaimLeasesDue | api/doug/outcome_queue.py:214-248 | A claim leases exactly the pending rows of the repository whose window has closed, each under its next generation, and hands out copies of the leased rows in (due, id) order. |
| OutcomeLane.ReclaimExpiresLeases | api/doug/outcome_queue.py:251-268 | Exactly the claims older than the lease are pending again, with nothing spent; every other row stands. |
| OutcomeLane.FailRows | api/doug/outcome_queue.py:308-317 | The loop over a batch is the failure of the whole batch at once (`OutcomeLane.FailureSpendsAttempts` says what that is). |
| OutcomeLane.WriteRows | api/doug/outcome_queue.py:348-376 | The settlement loop appends the classified rows in order and marks exactly their jobs done. |
| OutcomeLane.RefuseRows | api/doug/outcome_queue.py:377-378 | The refused jobs each spend an attempt, after the rows are written; with them the whole settlement is done (`OutcomeLane.SettlementDecidesEveryJob`). |
| OutcomeLane.OutcomeQueue.ClaimRepository | api/doug/outcome_queue.py:214-248 | Leases every due row of one repository and no other, in (due, id) order; the batch carries the rows as leased. |
| OutcomeLane.OutcomeQueue.ReclaimStalled | api/doug/outcome_queue.py:251-268 | Re-pends exactly the expired claims and changes nothing else. |
| OutcomeLane.OutcomeQueue.FailClaimedBatch | api/doug/outcome_queue.py:308-317 | All or nothing: each job spends one attempt, failed exactly at the cap and pending below it, or the claim is lost and nothing changes. |
| OutcomeLane.OutcomeQueue.SettleClaimedBatch | api/doug/outcome_queue.py:324-379 | All or nothing: each job is done, or spends an attempt for its own refused date, and the rows are appended; or nothing changes. |
| Adjudicate.AdjudicateBatch | api/doug/adjudicate.py:199-247 | One outcome per adjudicable job and one refusal per other job, in order; together as many as the jobs. |
| Adjudicate.OneEntryPerJob | api/doug/adjudicate.py:207-213 | Every job falls into exactly one of the two lists. |
| Adjudicate.LongerWindowsOnlyAddReverts | api/doug/adjudicate.py:262-311 | For jobs differing only in window length, a revert at the shorter is a revert at the longer, and non-revert results agree. |
| Adjudicate.AttributionPrecedesCensoring | api/doug/adjudicate.py:262-311 | Over a whole batch, adjudicating against another clone publishes the same reverts row by row and drops the same labels per window; losing the clone makes every other row censored. |
| Adjudicate.RowCarriesItsEvidence | api/doug/adjudicate.py:262-311 | A row carries the merge, the window around it, the attributed commit and its instant, and both branches. |
| Adjudicate.RowExplainsItself | api/doug/adjudicate.py:262-311 | Kind and reason of a published row follow from the evidence printed on it, so that it can be checked without the job. |
| Adjudicate.ExactBoundEqualsDayFilter | api/doug/adjudicate.py:288-302 | For every integer tolerance the exact lower bound keeps the same reverts as the floor-of-days filter. |
| Adjudicate.PredatedReverts | api/doug/adjudicate.py:167-196 | The tally holds, per window, exactly the rows whose revert predates the window. |
| Adjudicate.PredatedNeverOverlapsReverts | api/doug/adjudicate.py:189-196 | A row counted as predated is never a revert row. |
| AdjudicationLog.Resolve | api/doug/example_pack_eval.py:66-123 | Succeeds exactly on accepted logs (unique ids, linked, acyclic, one live head per finding), each error only for its own cause, and returns the live heads. |
| AdjudicationLog.CheckCycles | api/doug/example_pack_eval.py:92-107 | The visiting/visited walk succeeds exactly when following supersedes from every record ends. |
| AdjudicationLog.AcceptedMeansSingleChains | api/doug/example_pack_eval.py:66-123 | A log is accepted exactly when ids are unique and each finding’s records form one single chain; its head is that chain’s last record. |
| AdjudicationLog.SingleChainsAreAccepted | api/doug/example_pack_eval.py:66-123 | Single chains leave no cycle, no dangling link and no second head. |
| AdjudicationLog.HeadCarriesChain | api/doug/example_pack_eval.py:109-123 | From a finding’s only live head the links lead through all of its records. |
| AdjudicationLog.HeadsAreChainEnds | api/doug/example_pack_eval.py:109-123 | The resolved record of each mentioned finding is the last of its chain, and no other finding is resolved. |
| AdjudicationLog.AppendKeepsAccepted | api/doug/example_pack_service.py:484-512 | Appending a record that names the current head keeps the log accepted. |
| AdjudicationLog.HeadsAfterAppend | api/doug/example_pack_service.py:484-512 | After the append the new record is its finding’s result and every other result is unchanged. |
| AdjudicationLog.CurrentIsUnique | api/doug/example_pack_service.py:495-499 | The comparison against the resolved head decides exactly whether the caller names the current record. |
| AdjudicationLog.NamedHeadNeverReturns | api/doug/example_pack_service.py:484-512 | After one write naming a head, no later accepted log has that head as current: two writers that saw one head never both succeed. |
| AdjudicationLog.OtherCurrentAfterAppend | api/doug/store.py:658-682 | A write to one finding leaves every other finding’s current record what it was, both for those who name it and for those who do not. |
| AdjudicationLog.EveryInterleavingIsAccepted | api/doug/example_pack_service.py:484-512 | With locks per finding only: however writers interleave between reading the log and storing, and die in between, the log stays accepted and every record about to be stored still names the current head. |
| AdjudicationLog.StoreLands | api/doug/example_pack_service.py:484-512 | A record built from an earlier log and stored into a later one becomes its finding’s result and changes no other result. |
| AdjudicationLog.BothWritersLand | api/doug/example_pack_service.py:484-512 | Two writers on different findings, both between reading and storing, both land, in either order. |
| AdjudicationLog.ExamplePackService.BeginWrite | api/doug/example_pack_service.py:480-510 | Under the finding’s lock: each refusal for its own cause and without effect; otherwise the record to store, field by field as given, built exactly when the caller names the current head of the log as read. |
| AdjudicationLog.ExamplePackService.StoreWrite | api/doug/example_pack_service.py:511-512 | Appends that record to whatever the log is by then, live, and frees the lock. |
| AdjudicationLog.ExamplePackService.Adjudicate | api/doug/example_pack_service.py:462-512 | A call with nobody in between: refused calls change nothing, an accepted one appends one live record superseding the named head. |
| Scorecards.ScoreIsConserved | api/doug/example_pack_eval.py:183-205 | Actionable plus accepted plus unsupported is the sum over packs of min(findings, cap), and every pack is eligible. |
| Scorecards.CapHolds | api/doug/example_pack_eval.py:183-205 | At most the cap is counted per pack; everything exactly when no pack exceeds it, the cap times the packs exactly when each fills it. |
| Scorecards.ScoreCountsDispositions | api/doug/example_pack_eval.py:186-196 | Actionable and accepted are the counted findings whose own current record has that disposition. |
| Scorecards.ScorePacks | api/doug/example_pack_eval.py:126-205 | Succeeds exactly on valid packs, overlays that refer to their findings, and an accepted log; the score is the one against the log’s own heads. |
| Scorecards.ScorePacksByInstrument | api/doug/example_pack_eval.py:208-235 | Succeeds exactly when every instrument’s part does; one entry per instrument, each scoring its own packs against its own overlays. |
| Scorecards.SelectionCommutes | api/doug/example_pack_eval.py:208-235 | Restricting an accepted log to a set of packs leaves it accepted and keeps every head. |
| Scorecards.PartsSumToWhole | api/doug/example_pack_eval.py:208-235 | The per-instrument scorecards add up to the scorecard of all packs at once. |
| Scorecards.DistinctByParts | api/doug/example_pack_eval.py:132-149 | Duplicate identities clash in the whole exactly when they clash inside one part. |
| Scorecards.WholeIsScorableExactlyWhen | api/doug/example_pack_eval.py:152-235 | All packs score at once exactly when every part does, ids are unique across parts and every overlay names a pack among them. |
| Scorecards.StrayOverlayIsDroppedByParts | api/doug/example_pack_eval.py:224 | An overlay on an unknown pack: scoring by instrument ignores it, scoring at once refuses it. |
| Hunks.SplitHunks | api/doug/hunks.py:21-43 | The line loop yields the joined groups of the patch. |
| Hunks.HunksKeepEveryLine | api/doug/hunks.py:21-43 | Preamble then hunks are all the lines in order; each hunk has exactly one @@ line, in front. |
| Hunks.SplitIsUnique | api/doug/hunks.py:21-43 | No other way of cutting the lines has that shape. |
| Hunks.LinesOfJoin | api/doug/hunks.py:43 | Splitting joined lines again loses nothing but an empty last line. |
| Hunks.EveryMarkEndsALine | api/doug/hunks.py:30 | Each of the ten line breaks Python knows ends a line. |
| Hunks.IndexIsOfChangesOnly | api/doug/hunks.py:46-70 | Two patches have equal indexes exactly when their hunks change the same lines in order; headers and context never show. |
| DiffText.HeaderNameIsExact | api/doug/reader.py:1151 | The header recognizer accepts exactly the lines of the header grammar, and reads one name from each. |
| DiffText.HeadersAreInOrder | api/doug/reader.py:1276 | The headers found are whole lines in increasing order inside the text. |
| DiffText.HeadersOfAssembled | api/doug/review.py:285-289 | Scanning the joined chunks finds exactly the printed files, in order, each at its chunk’s start. |
| DiffText.UnifiedPatchHoldsNoHeader | api/doug/hunks.py:27-30 | A patch whose lines begin as unified diff lines do holds no header, so the printing assumption is met by every real patch. |
| DiffText.ChunkInPlace | api/doug/reader.py:1134-1149 | The chunk of each file stands byte for byte between its start and its end in the joined text. |
| Coverage.Observe | api/doug/reader.py:1253-1312 | What coverage reports, field by field; it never reports more than the budget, unseen are exactly the names whose headers all end beyond it, indexed those with a chunk that ends within it, and the cut file is the last seen if more than a separator is missing. |
| Coverage.RoundTrip | api/doug/reader.py:1229-1250 | Printing files and parsing the text finds them again and returns each patch that fits, byte for byte, and no other. |
| Coverage.EachFileAtABudget | api/doug/reader.py:1271-1308 | At any budget each printed file is indexed, unseen or the cut one, by where its header and its chunk end; only a last file one or two characters short is none of them. |
| Coverage.IndexHoldsWhatFits | api/doug/reader.py:1293-1301 | The index holds exactly the files whose patch ends within the budget, with their own patches. |
| Coverage.SentThenUnseenIsAll | api/doug/reader.py:1271-1308 | Sent names followed by unseen ones are all names in order, exactly when no seen name comes again later. |
| Coverage.IndexedIsSentMinusCut | api/doug/reader.py:1281-1301 | Indexed files are the sent ones minus the cut one, exactly unless the budget stops one or two characters before the end with the last header sent. |
| Coverage.OneCharacterShortIsTheGap | api/doug/reader.py:1283-1292 | One character short of any printed diff is such a stop: the last file is neither cut nor indexed. |
| Coverage.BudgetOnlyAdds | api/doug/reader.py:1293-1301 | With distinct names a larger budget only adds index entries and alters none. |
| Coverage.ArrivedIsExact | api/doug/reader.py:1242-1250 | On any text with distinct names, a name is indexed exactly when its patch arrived whole, with that patch. |
| Coverage.SentFilePatches | api/doug/reader.py:1866-1893 | Reports drift exactly when the stored index is not part of what the text yields; otherwise each patch has the stored hunks one by one. |
| Coverage.ObserveThenSplit | api/doug/reader.py:1866-1893 | On any text, coverage never drifts from itself and every indexed file gets its patch. |
| Convergence.Classify | api/doug/convergence.py:165-225 | The budget loops give each row exactly the entry its place among equal rows and the evidence determine, prior side first, in order. |
| Convergence.PairsAreConserved | api/doug/convergence.py:181-224 | Per (pattern, file) the re-reported priors and the matched laters are both min(p, l); an identity never has an unmatched prior and a new row. |
| Convergence.Compare | api/doug/convergence.py:135-162 | The counters equal the entries per state, and no zero count is kept. |
| Convergence.ReportAddsUp | api/doug/convergence.py:135-162 | Persisted, new, unknown, excluded and matched entries are all rows of both sides, and resolved is always 0. |
| Convergence.AttributedMeansBothHoldIt | api/doug/convergence.py:264-292 | A finding is carried by attribution exactly when it is open, its file changed, and all of its attributed hunks stand in both reads. |
| Convergence.AbstentionsMean | api/doug/convergence.py:244-292 | Settled, missing index and uncovered are said exactly when their evidence, spelled out column by column, holds. |
| Convergence.ChangedFileMeans | api/doug/convergence.py:264-292 | Of a file whose hunks differ: left-diff, edited, carried and not reconfirmed are told apart exactly by what is left of the file’s and of the finding’s own hunks. |
| Convergence.ByConstructionMeansEqualHunks | api/doug/convergence.py:244-263 | A finding is carried by construction exactly when no row re-reports it, nothing hides its file, nothing disproved it and both reads stored equal hunks; the delta then says whether the whole indexes are equal. |
| Convergence.ExcludedExactlyWhen | api/doug/convergence.py:165-200 | Every row has one entry on its own side; excluded are exactly the rows without a pattern, and one without a file is unknown instead. |
| Convergence.UnchangedPairHasNoChangedFile | api/doug/convergence.py:295-302 | If any entry says nothing moved between the reads, no entry of that report says its code changed. |
| Convergence.FileHasOneAnswer | api/doug/convergence.py:165-302 | Any two entries of one report, on either side, that give away whether their file changed (a carry by construction or attribution, an edited, left or unconfirmed abstention, a new finding’s code_changed) agree when the file is the same. |
| Convergence.HeadlineDenominatorIsItsNumerator | api/doug/check_run.py:789-796 | No prior entry carries code_changed, so the headline’s denominator always equals its count of silent carries. |
| Convergence.SilentCounts | api/doug/check_run.py:789-796 | The headline’s numerator is the number of entries carried by construction. |
| Evidence.FileInRead | api/doug/reader.py:1271-1308 | A stored read indexes the files that arrived whole, by their own hunks, and hides the others, but for one in the gap. |
| Evidence.CarriedExactlyWhenUnchanged | api/doug/convergence.py:244-292 | From two printed diffs and budgets to the finding diff: an open finding is carried silently exactly when its file arrived whole both times with the same hunks; a later file in the gap is taken to have left the diff. |
| CheckRunCut.Render | api/doug/check_run.py:1188-1221 | What is posted fits the cap or its own tail, has its folds balanced, and when cut shows the body’s first m lines and closing tags and a notice that names, in this order, how many of how many bullets are rendered after them. |
| CheckRunCut.SummaryFits | api/doug/check_run.py:1191-1213 | The summary never exceeds the cap when the reserved tail fits it, and never exceeds the tail otherwise. |
| CheckRunCut.NoticeFitsReserve | api/doug/check_run.py:902-929 | No notice is longer than the bare one or the one saying that everything is missing. |
| CheckRunCut.FoldsBalance | api/doug/check_run.py:970-980 | Opening and closing tags balance exactly when the kept text closes no more than it opens, hence for every well-folded body. |
| CheckRunCut.SummaryFoldsBalance | api/doug/check_run.py:1206-1220 | Notice and footer never stand inside an open fold. |
| CheckRunCut.KeptIsWholeLines | api/doug/check_run.py:983-1011 | The kept text ends with a whole line exactly unless the cut falls inside the first line. |
| CheckRunCut.KeepsAllThatFits | api/doug/check_run.py:1191-1213 | Every whole line that fits beside the reserve and the footer is kept, but for a fold the cut left empty. |
| CheckRunCut.RenderKeepsWholeLines | api/doug/check_run.py:983-1011 | Whenever the first line, the reserve and the footer fit the cap, the kept text ends with a whole line. |
| CheckRunCut.HelperCutsTheFirstLine | api/doug/check_run.py:983-1011 | An input on which the helper alone returns half a line. |
| CheckRunCut.EmptyFoldsGo | api/doug/check_run.py:935-967 | A fold is removed exactly when it is the last one, unclosed, and holds nothing but white space after its summary; the line feeds before it go too. |
| CheckRunCut.ShownFindings | api/doug/check_run.py:1014-1042 | The forward line cursor computes the shown count. |
| CheckRunCut.ShownIsLongestRun | api/doug/check_run.py:1014-1042 | A prefix of the bullets embeds in order in the kept lines exactly when it is no longer than the count. |
| CheckRunCut.ShownIsWhatIsKept | api/doug/check_run.py:1014-1042 | When no other line reads like a bullet, the count is exactly the bullets rendered on the kept lines. |
| CheckRunCut.NoticeCountsWhatWasRemoved | api/doug/check_run.py:1205-1220 | End to end, the shortfall counts exactly the bullets whose lines the cut removed. |
| Migration5.OneVerdictPerIdentity | api/doug/migrations.py:175-185 | Of each App group exactly the lowest id stays; every other verdict is untouched. |
| Migration5.GroupsAndJoins | api/doug/migrations.py:119-141 | Grouping takes missing values for equal, joining takes them for nothing, column by column. |
| Migration5.DedupedIsUnique | api/doug/migrations.py:186-188 | After the deletion the unique index can be built and nothing is left to delete. |
| Migration5.KeeperIsFirst | api/doug/migrations.py:119-141 | The join gives an extra’s group keeper, or NULL when an identity column is missing. |
| Migration5.MissingColumnLosesTheVerdict | api/doug/migrations.py:119-141 | Two equal verdicts without a repository id and a job on the second: the first is kept and the job ends with none. |
| Migration5.OneMoreDone | api/doug/migrations.py:96-190 | Any statement, repeated or interleaved, only adds itself to the set of statements done. |
| Migration5.EveryRunFollows | api/doug/migrations.py:500-551 | With any number of instances crashing, restarting and racing, the tables are a function of which statements have run. |
| Migration5.InstanceGoesOn | api/doug/migrations.py:526-551 | Whatever others do meanwhile, an instance that is not restarted runs one statement a step and has finished after six. |
| Migration5.EveryStateIsSound | api/doug/migrations.py:96-190 | In every state of every such run no row refers to a missing verdict and the index holds. |
| Migration5.FinishedRunsAgree | api/doug/migrations.py:526-551 | Once any instance has finished, the tables are those of one undisturbed run. |
| Migration5.RepairIsExact | api/doug/migrations.py:96-190 | The final tables, row by row: keepers, dependents of keepers, and each job on its keeper, its own verdict or NULL. |
| Migration5.EveryRolloutIsSound | api/doug/migrations.py:96-190 | With verdicts, jobs and dependents inserted by the running service between statements, deletions and the index refused where the database refuses them, instances restarting: no reference dangles, and once an instance has finished identities stay unique. |
| Migration5.WriteIsAcceptedExactlyWhen | api/doug/migrations.py:96-190 | The service’s own insert is stored exactly when it takes no verdict’s id and its result keeps every reference and the index. |
| Migration5.QuietRerunRepairs | api/doug/migrations.py:500-551 | Whatever such traffic left behind, one undisturbed rerun meets no refusal and ends in the exact repair of the tables as it found them. |
| Migration5.Ledger.Apply | api/doug/migrations.py:526-551 | Runs the statements in order, records the version last, and does nothing once it is recorded. |
| Migration5.CrashThenRerun | api/doug/migrations.py:526-551 | A crash before any statement followed by a full rerun ends in the tables of an undisturbed run. |
| Backfill.Table.Apply | api/doug/outcome_backfill.py:326-364 | Succeeds exactly when the table is clean before, the missing count is the expected one and the manifest can be written; a refusal changes no row. |
| Backfill.Table.InsertMissing | api/doug/outcome_backfill.py:224-251 | One new untouched job per missing sibling, due 60 days after its merge; old rows stand, the manifest names exactly the new ones. |
| Backfill.NewRowMeans | api/doug/outcome_backfill.py:224-251 | Each new row watches the same merge for 60 days, is due when they are over, and waits untouched. |
| Backfill.CleanAfter | api/doug/outcome_backfill.py:276-300 | After a repair that was clean before nothing is missing, mismatched or orphaned, and new jobs are already due exactly for the overdue ones. |
| Backfill.ReportPartitionsEligible | api/doug/outcome_backfill.py:132-156 | Existing plus missing is eligible, and overdue is among the missing. |
| Backfill.AuditMeans | api/doug/outcome_backfill.py:132-215 | Missing, mismatched and orphaned rows, column by column: 14 against 60 days of one merge, same date and branch, due after 60 days. |
| Backfill.CountDecides | api/doug/outcome_backfill.py:433-448 | Counting the rows the manifest names decides exactly whether every one of its lines still stands. |
| Backfill.Table.Rollback | api/doug/outcome_backfill.py:459-472 | Deletes exactly the manifest’s rows if all stand untouched, otherwise none. |
| Backfill.RollbackUndoesApply | api/doug/outcome_backfill.py:326-472 | After any history that leaves the backfill’s rows alone the rollback’s condition holds, the manifest is exactly the rows added, and what is left of the last table is all its other rows unchanged. |
| Backfill.WorkCommutes | api/doug/outcome_backfill.py:459-472 | Writes to other rows do the same with the backfill’s rows beside them as without. |
| Backfill.RollbackLeavesTheOthersWork | api/doug/outcome_backfill.py:326-472 | Apply, any writes to other rows, rollback: the table is the one those writes make of the table before. |
| Backfill.ApplyThenRollback | api/doug/outcome_backfill.py:326-472 | The same run on the table itself, the writes between the two calls subject to its unique constraint; with no writes the table is restored. |
| YamlSubset.ParseNode | api/doug/ci_evidence.py:104-110 | On every input the parse ends and leaves a suffix of the lines, a shorter one when it starts on content at its indent. |
| YamlSubset.ParseEntries | api/doug/ci_evidence.py:113-136 | A mapping consumes at least its first line. |
| YamlSubset.ParseItems | api/doug/ci_evidence.py:139-168 | A sequence consumes at least its first line. |
| YamlSubset.RewrittenOpens | api/doug/ci_evidence.py:158-164 | The rewritten dash line is content at exactly the inner indent and holds the key’s text. |
| YamlSubset.QuotedScalarIsRead | api/doug/ci_evidence.py:72-95 | Quoted text is read as it stands whatever marks it holds, with or without a trailing comment. |
| YamlSubset.BlockScalarMeans | api/doug/ci_evidence.py:171-189 | A block scalar is its lines from the first one’s column on, blank ones empty and shallower ones trimmed, without empty lines at the end; it ends at the first line no deeper than its key. |
| YamlTokens.KeyLineGrammar | api/doug/ci_evidence.py:48 | A line is a key line exactly when it is spelt key, space, colon, and nothing or space and the rest. |
| YamlTokens.DashLineGrammar | api/doug/ci_evidence.py:49 | A line is an item exactly when it is a dash and nothing, or a dash, space and the rest. |
| YamlTokens.CommentGrammar | api/doug/ci_evidence.py:72-85 | Outside quotes a comment starts at the first number sign with nothing or a blank before it, and nowhere else. |
| YamlTokens.ScalarGrammar | api/doug/ci_evidence.py:88-95 | Anchors, aliases and tags are unreadable; quotes are taken off only when the same one closes the value. |
| YamlTokens.BlockMarks | api/doug/ci_evidence.py:113-136 | Either block mark, whatever follows it, hands the value to the block below. |
| YamlTokens.RepeatedKeyIsReplaced | api/doug/ci_evidence.py:113-136 | A repeated key keeps its place and takes the later value. |
| YamlNoise.NoiseHasNoContent | api/doug/ci_evidence.py:64-69 | White space, a comment or a document marker alone on a line is no content. |
| YamlNoise.NoiseChangesNothing | api/doug/ci_evidence.py:98-199 | Any two texts without block scalars whose lines with content are the same are read the same, or are unreadable both. |
| YamlPrinting.NodeBack | api/doug/ci_evidence.py:104-168 | A printed tree followed by shallower content is read back whole, and the content is left over. |
| YamlPrinting.BlockBack | api/doug/ci_evidence.py:171-189 | A printed literal block is read back, inner indentation and empty lines kept, with the shallower content after it left over. |
| YamlPrinting.PrintedDocumentIsReadBack | api/doug/ci_evidence.py:192-199 | The parser inverts canonical printing of every non-empty tree of mappings, sequences and text: plain scalars of any number of words, quoted ones, and literal blocks of many lines under a key. |
| YamlParser.Parse | api/doug/ci_evidence.py:192-199 | The array parser that rewrites its lines in place computes that meaning. |
| YamlParser.ParseEntriesAt | api/doug/ci_evidence.py:113-136 | The mapping loop: result as specified, index never back, lines outside those passed untouched. |
| YamlParser.ParseItemsAt | api/doug/ci_evidence.py:139-168 | The sequence loop, likewise. |
| YamlParser.ParseDashedEntriesAt | api/doug/ci_evidence.py:158-164 | Rewriting the dash line in place disturbs nothing still to be read. |
| YamlParser.BlockScalarAt | api/doug/ci_evidence.py:171-189 | The block-scalar loop computes its specified text and next line. |
| RulingsBlock.Blocks | api/doug/rulings.py:127-172 | The nested line loops find the blocks, unclosed and swallowed openers of the text cut into segments. |
| RulingsBlock.SegmentsKeepEveryLine | api/doug/rulings.py:127-172 | Every line lies in exactly one segment, in order; prose opens nothing, no body line closes its fence, only the last fence may stay open. |
| RulingsBlock.SegmentsAreReadBack | api/doug/rulings.py:127-172 | Writing such segments out and cutting the text again gives them back, so there is only one way to cut. |
| RulingsBlock.FenceGrammar | api/doug/rulings.py:66 | A line is a fence exactly when it is spelt with up to three spaces, three or more of one mark and a tail, which trimmed is its info string. |
| RulingsBlock.CloserGrammar | api/doug/rulings.py:127-172 | A line closes a fence exactly when it holds as many of the same mark or more, and no more than that. |
| RulingsBlock.WrittenBlockIsRead | api/doug/rulings.py:127-266 | A block written with either mark, prose around it, is read row for row. |
| RulingsBlock.OneClosedBlockIsRead | api/doug/rulings.py:233-266 | Rows are read exactly when one closed block stands outside every other fence and no open fence hides another; nothing at all is said exactly when there is none. |
| Carry.AnchorsExactlyWhen | api/doug/rulings.py:312-370 | A ruling is anchored exactly when it names one stored read and, in it, reader findings of its rule on one single file. |
| Carry.SkippedExactlyWhen | api/doug/rulings.py:312-370 | Each reason to skip a ruling is given exactly for its own cause in the stored reads. |
| Carry.MatchesMeans | api/doug/rulings.py:285-309 | A stored finding answers a ruling when both are reader rules of one slug and one path is the other or ends it after a slash. |
| Carry.SameWordsSameRule | api/doug/rulings.py:299-309 | Two rules are one exactly when they spell the same words, whatever the case and whatever stands between. |
| Slugs.EverySpellingHasOneSlug | api/doug/patterns.py:37-55 | However its words are cased, separated and framed, a name’s slug is its words in kebab case. |
| Slugs.KebabTellsWords | api/doug/patterns.py:37-55 | Different words have different slugs. |
| Carry.Resolve | api/doug/rulings.py:312-370 | Every ruling is kept or skipped once, in order, after the block’s own skips. |
| Carry.KeptIsAnchored | api/doug/rulings.py:312-370 | What is kept is precisely the anchors of the block’s own rulings. |
| Carry.CarryDecisions | api/doug/reader.py:2095-2146 | The two dictionaries and the withdrawal loop compute the decisions, which are defined without any order. |
| Carry.DecisionReflectsAnswer | api/doug/reader.py:2106-2136 | A decision repeats the only row naming its finding: an offered ruling, raised again exactly when the author changed code, otherwise split by whether the basis changed. |
| Carry.DecidedExactlyWhen | api/doug/reader.py:2095-2146 | A finding is decided by a ruling exactly when one row alone names it and chooses that ruling of those offered, and the ruling is chosen for no more findings than it raised; the outcome is fixed by what the author and the model said. |
| Carry.DecisionsAreOrderFree | api/doug/reader.py:2095-2146 | The same answer rows in any order decide the same. |
| Carry.CapacityHolds | api/doug/reader.py:2137-2145 | No ruling labels more findings than its read stored under it; its picks all stand or none does. |
| Carry.EveryFittingAssignmentIsDecided | api/doug/reader.py:2137-2145 | Capacity is the only limit: every assignment of offered rulings within it is what some answer decides. |
| Carry.SharedAnchorOverflows | api/doug/reader.py:2137-2145 | Two rulings on one anchor and more candidates on its file than stored findings: some answer labels more findings than were stored. |
| Carry.StoredFindingsBoundExactlyWhen | api/doug/reader.py:2137-2145 | Labels resting on one stored anchor never outnumber its findings, for all answers, exactly when no other kept ruling shares the anchor or no more candidates lie on its file. |
| Carry.OffersGoByFile | api/doug/reader.py:2174-2185 | The offers made in a run are by file, as the bound above assumes. |
| Carry.Offers | api/doug/reader.py:2174-2185 | Each candidate finding is offered exactly the rulings anchored to its own file. |
| Carry.DecisionIsGrounded | api/doug/reader.py:2095-2185 | A label rests on one ruling of the block, one stored read and one stored file equal to the finding’s; carried only for unchanged code. |
| Carry.CarryFindings | api/doug/reader.py:2149-2240 | End to end, both ways: offered are exactly the reader findings on indexed files with a ruling on that file; labelled exactly those the answer chooses within capacity, with that ruling and its outcome; every label grounded; and the number returned is that of the carried ones. |

## Left out

- ReviewQueue.ReviewJobs.ClaimOldest: SKIP LOCKED lets a claimer pass over a row that another open transaction has locked, and sqlite may answer None after a lost race; here every transaction is atomic and a claim takes the oldest pending row.
- ReviewQueue.EveryReachableTableIsSound: covers the default attempt cap only, since every shipped caller uses it, and only rows admitted with a base SHA; rows older than that column are not modelled.
- ReviewQueue.FailuresPerCooloffWindow: counts runs in which only the sweep revives this row, as the cooloff makes no promise about live callers.
- OutcomeLane.OutcomeQueue.ClaimRepository: which installation and display name a repository resolves to (`_repository_identity`) and the list of due repositories are lookups in tables not modelled; they become parameters or are absent.
- OutcomeLane.DoneMeansExactlyOneOutcome: speaks of outcome rows the lane writes; older rows without a merge SHA lie outside the unique index and are not modelled. The JSON detail and the preregistration hash are opaque.
- AdjudicationLog.CheckCycles: Python's recursion limit on very long chains is not modelled.
- AdjudicationLog.ExamplePackService.BeginWrite: the lock covers one finding, so reading the log and storing a record are separate steps with other findings’ writers in between; each of the two is taken as one step, though the store lists and reads the records one by one. Receipts are opaque, record ids are an injective hash of the record’s body, and a lock that cannot be had is an abandoned call.
- Scorecards.ScorePacksByInstrument: the sorted order of instruments carries no meaning and is not modelled; the null and spam control scorecards are expressions over the same counts.
- DiffText.HeaderNameIsExact: the counts of a header are ASCII digits; the regular expression also accepts other Unicode digits.
- DiffText.HeadersOfAssembled: assumes that no patch line has the shape of a header, which unified patches meet (`DiffText.UnifiedPatchHoldsNoHeader`), and that names hold no line feed; the order of files (`read_order`) is whatever the caller chose.
- Coverage.Observe: `read_of`'s suffix matching and the display-only `changed_files` are absent.
- Convergence.Classify: patterns are taken as already normalised (`patterns.py`), and what the later verdict settled is a set of (pattern, file) pairs instead of the notices' label text.
- CheckRunCut.Render: starts from the finished body, footer and list of counted bullets, and is told where the bullets were rendered; building them is formatting.
- Migration5.Ledger.Apply: the other migrations are single DDL statements; deciding from an error text that a DDL statement was already satisfied, and two instances both recording the version, are not modelled. Its own methods speak of one instance; other instances and the running service stand in `Migration5.Next` and `Migration5.NextTraffic`, where they delete and change no verdict.
- Backfill.Table.Apply: the per-repository counts, the dialects' date arithmetic and the manifest's JSON are absent; table locks are taken to make it atomic.
- Backfill.CleanAfter: shows that the checks after the insert cannot fail, so those error branches are never taken here.
- YamlPrinting.PrintedDocumentIsReadBack: keys are plain words, quoted text holds at most one kind of quote, as the parser knows no escapes, and a block is printed only under a key, as the parser reads none under a dash. Comments are never printed.
- YamlNoise.NoiseChangesNothing: leaves out texts with block scalars, inside which a comment line is text.
- YamlSubset.ParseNode: workflows, jobs and steps built from the parsed tree are branches a single reading settles.
- RulingsBlock.OneClosedBlockIsRead: goes as far as the block's lines; decoding each as JSON, its field checks and the row limit are not modelled.
- Carry.Resolve: the decoded rows are input; letters are folded to lower case in ASCII only.
- Carry.CarryFindings: the prompt, the spend cap and the transport are absent; a response that fails them is an answer without rows.
- HTTP routes, webhooks, GitHub, Anthropic, WorkOS and storage clients, the command line and the web console: input, output and presentation.
- `pr_comment.py`, `store.py`, `worker.py` and `tenancy.py` are not part of this model.
- `settle.py` and `verify.py`: their truth lies in the Python grammar and other tools.
- `scoring.py`, `features.py`, `models.py` and settings parsing: independent branches that would only add easy members.
