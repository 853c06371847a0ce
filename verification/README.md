# A model of the stateful core of radar-api, with proofs

radar-api keeps a registry of API specifications, compares versions of them and
tells the consumers of an API what a change means to them. This project models
the parts of it in which several requests, replicas or background jobs share
state, and the encoders and matchers those parts rest on. Every property is
proved by Dafny for all inputs and all runs of the model.

One module stands for one component:

| module | component |
|---|---|
| `SnapshotIdentity`, `JsonText`, `TextOrder` | content-addressed identities of spec snapshots and submitted reports |
| `DiffCache` | stored versions and diffs as a cache under concurrent requests |
| `BlastRadius`, `ImpactVerdict` | which consumers a diff concerns, on what evidence, and the evidence written back; what that means in terms of the rows of the tables |
| `SchemaReport`, `ProtoScanner` | a report whose fingerprint the protobuf scanner takes for a schema |
| `ScanLease`, `ScanChain`, `ScanRunner` | scheduled scans: the lease taken by replicas, the chain of stored specs, and the code |
| `CsvRunner`, `RowDispatch`, `PlaceholderStripper` | the executor of CSV runs with concurrent cancel requests |
| `WebhookOutbox`, `WebhookFaults` | webhook deliveries with retries, crashes, the startup sweep and deleted webhooks |
| `RateLimiter` | the per-key request limiter |
| `Retention`, `RetentionRuns`, `FinishedJobs` | the per-organisation retention tick, any number of them, and which CSV runs they delete |
| `PlaceholderRewriter`, `Decimals` | `?` to `$1, $2, ...` in SQL texts; decimal numbers |
| `GlobMatcher`, `EvolutionRules` | glob patterns on field paths, rules that relax severities |
| `Options`, `Sequences` | optional values; selecting rows |

## How the model is built

The database is a set of maps and sequences, and one SQL statement or
transaction is one atomic step. Components with concurrency are state machines:
a run is a sequence of events, which stands for an interleaving of any number of
requests, jobs or replicas, together with failing statements, crashes and the
passing of time. The code itself is modelled as classes whose methods change
fields. The contract of every such method says which function of the old state
the new one is. For a submitted diff, a scheduler tick, a scan, the CSV executor and
a webhook delivery it says that the code, run with any answers and any failures,
ends where the machine ends; for a CSV run with cancel requests in between as well.

Automatic induction is switched off where Dafny would otherwise add an induction
hypothesis of its own, so each inductive proof shows its own recursion.

Assumed, as parameters of the model: SHA-256 and version 5 UUIDs are injective,
lower-casing twice is lower-casing once, the parsers and diff engines are one
deterministic function (up to the order of changes, which nothing depends on), a
statement that fails has no effect, newly drawn version 4 UUIDs are inputs, and times are
integers of one clock that all replicas share. An outgoing request is an
arbitrary answer.

## What the proofs found

Where the code falls short of its comments or of what a caller may expect, the
model follows the code, and a lemma says exactly when.

- A cancellation accepted before the executor marks the job as running is
  overwritten (`EarlyCancelIsLost`); `CancelSurvivesExactly` says which
  cancellations last. The text "cancelled" is never written as the error of a row
  whose retries were given up, because the error of an earlier attempt is always
  there (`DispatchRow`).
- A scan that takes as long as its interval can be overlapped by the next one: an
  undisturbed tick never starts a second run if and only if every run is in time
  (`NeverOverlapsExactly`). `last_run_at` goes back exactly when a run writes its
  status that began before the time in the row (`GoesBackExactly`); a run in which
  both happen is `LateStatusMovesBack`.
- The chain of a scan survives a crash exactly outside the window between the fetch
  of a new text and the status write. Within it, the hash in the row stops matching
  the newest stored spec exactly between the writes that belong together, on a
  crash (`CrashBreaksExactly`) as on a failing statement, which the code ignores
  (`FailureBreaksExactly`). A change is never compared, however the scan goes on,
  exactly if it is the comparison itself that is lost, or that is made without the
  base (`ChangeIsLostExactly`); runs that get there are `CrashLeavesHashWithoutSpec`
  and `ChangeCanBeLost`.
- `delivered` is not final: it can turn into `failed` exactly while another
  worker of the same delivery is still trying, and a sweep can start one
  (`DeliveredCanFailExactly`, `SweepCanOverlapDelivery`).
- The source takes the id of a written-back row for a key of its operation and field.
  Listed evidence finds a row of its own exactly if no other item reads the same with
  colons in between (`EvidenceIsKeptExactly`); with identifiers without colons that
  is, if no other item of the consumer has a part of the field at the end of the
  operation (`ShiftsLoseExactly`). `ColonsLoseARow` is a request that loses a row.
- An answer from the cache can be stale. A request is never answered with other
  changes than its own exactly if all requests for its transition agree about them
  (`CurrentExactly`). Among submitted reports they do, among comparisons they do, and in
  any mixture exactly if no comparison spells out a report's fingerprint while the engine
  finds other changes in the compared texts (`MixedAnswerIsCurrentExactly` for one
  request, `NeverStaleExactly` for all). That takes a text the parser accepts: the
  protobuf scanner accepts the fingerprint of any report about the path `};message M{}`
  (`FingerprintIsSchema`, `ComparisonMeetsReport`).
- The head text submitted with a report need not be what is stored under its version: it
  is, in every run, exactly if it is not itself the fingerprint of a report that leaves a
  version without a text there (`SubmittedTextIsKeptExactly`).
- A CSV run that a crash left running is never deleted, however old it gets
  (`RunIsDeletedExactly`).
- When the settings cannot be read, a retention tick goes on with the default
  window for everybody: it is wrong about exactly the rows between that window and
  the organisation's own (`UnreadableSettingsLoseExactly`,
  `UnreadableSettingsMistakeJobsExactly`). The next good tick deletes what such a tick
  kept too long; what it lost does not come back (`LostForGoodExactly`).
- Rewriting placeholders loses nothing exactly when no `$` outside a literal
  is directly followed by the number of the next placeholder (`RoundTrip`); a placeholder followed by a
  digit does no harm.
- One application of the evolution rules need not be final
  (`OneApplicationMayNotSuffice`); two always are.
- Stripping a template again changes it exactly when something outside its
  placeholders is not ASCII (`StrippingAgain`), since bytes are pushed as characters.

## Model

| member | source | states |
|---|---|---|
| SnapshotIdentity.HashedTextIsUnique | radar-api/src/diffs.rs:159-174 | the text hashed into a version id determines service id, ref, format and digest, whatever quotes, backslashes, colons and brackets they contain |
| SnapshotIdentity.SnapshotIdsCollideExactly | radar-api/src/diffs.rs:169-174 | two snapshots have one id exactly if service, ref, lower-cased format and content agree |
| SnapshotIdentity.BareLabelsCollide | radar-api/src/diffs.rs:159-165 | without the JSON array around the label, a colon moves between service and ref unnoticed |
| SnapshotIdentity.ChangeJsonIsInjective | radar-api/src/diffs.rs:38-44 | the serialised change determines all four fields, absent and present descriptions included |
| SnapshotIdentity.ReportsCollideExactly | radar-api/src/diffs.rs:417-424 | two reports have one fingerprint exactly if they list the same changes equally often, in any order |
| JsonText.EscapeIsInjective | radar-api/src/diffs.rs:172 | JSON escaping of strings (RFC 8259, section 7) loses nothing |
| JsonText.UnescapeEscape | radar-api/src/diffs.rs:172 | a reader that undoes the escape sequences as RFC 8259 gives them gets every text back |
| JsonText.QuotedTailIsUnique | radar-api/src/diffs.rs:172 | a text that ends in a quoted string has one such end: no escaped quote inside is taken for the opening one |
| JsonText.ArrayIsInjective | radar-api/src/diffs.rs:424 | the JSON text of an array of strings determines the array |
| TextOrder.SortedForgetsOrder | radar-api/src/diffs.rs:423 | sorting maps two lists of texts to one list exactly if they are permutations of each other |
| DiffCache.DiffStore.InsertVersion | radar-api/src/diffs.rs:431-442 | inserts a version unless its id is taken, and then leaves the stored one alone |
| DiffCache.DiffStore.FindDiff | radar-api/src/diffs.rs:466-470 | finds a diff of the transition exactly if one is stored |
| DiffCache.DiffStore.PersistDiffAtomic | radar-api/src/diffs.rs:98-152 | writes the diff with all its changes or nothing at all, whichever statement fails; loses to a stored diff of the same transition and then names it |
| DiffCache.DiffStore.Submit | radar-api/src/diffs.rs:425-516 | a request on its own stores both versions, answers with a diff of its transition, and adds one with all its changes only if there was none; it ends where the steps of a request end in the machine |
| DiffCache.AnswersAreCurrent | radar-api/src/diffs.rs:98-152 | under every interleaving, one diff per transition, and a finished request's diff is for its transition; it holds the changes the request would have stored if the requests for that transition agree about them |
| DiffCache.CurrentExactly | radar-api/src/diffs.rs:98-152 | no run answers a request with other changes than its own if and only if all requests for its transition agree about the changes |
| DiffCache.SameTransitionSameAnswer | radar-api/src/diffs.rs:464-516 | finished requests get the same diff id exactly if they ask for the same transition |
| DiffCache.StoredStays | radar-api/src/diffs.rs:431-462 | no later request changes a stored version, diff or set of changes |
| DiffCache.RequestCanFinish | radar-api/src/diffs.rs:464-516 | from any state a request can still finish exactly unless it failed or lost to a diff that is not of its transition |
| DiffCache.CreateTransitionsCollideExactly | radar-api/src/diffs.rs:414-449 | two submitted reports share a transition exactly if service, refs, format, changes and head text agree |
| DiffCache.CreateAnswersAreCurrent | radar-api/src/diffs.rs:414-516 | among report submissions, an answer from the cache always holds the submitted changes |
| DiffCache.StoredLabelsAreSubmitted | radar-api/src/diffs.rs:431-462 | on every run the versions stored for a submitted report have its service, its two refs and its lower-cased format, whichever request came first |
| DiffCache.SubmittedTextIsKeptExactly | radar-api/src/diffs.rs:446-462 | the head text submitted with a report is what is stored under its version on every run, if and only if it is not the fingerprint of a report that leaves a version without a text under the same labels |
| DiffCache.LanguagesExactly | radar-api/src/diffs.rs:1229-1300 | "graphql" and "gql" select one engine, "protobuf" and "proto" another, and every other format the third |
| DiffCache.CompareTransitionsCollideExactly | radar-api/src/diffs.rs:1318-1334 | two comparisons share a transition exactly if service, refs, format and both texts agree |
| DiffCache.CompareAnswersAreCurrent | radar-api/src/diffs.rs:1318-1406 | among single and batch comparisons, the stored changes of an answer are those that recomputing gives |
| DiffCache.StoredTextIsComparedText | radar-api/src/diffs.rs:1629-1657 | the version stored for a compared text is that text under that service, ref and lower-cased format, whichever request came first |
| DiffCache.FamiliesCollideExactly | radar-api/src/diffs.rs:425-449 | a report and a comparison share a transition exactly if the compared texts spell out the report's fingerprint |
| DiffCache.MixedAnswerIsCurrentExactly | radar-api/src/diffs.rs:414-516 | in any mixture of reports and comparisons, a request is always answered with its own changes if and only if no request of the other family contradicts it: same labels, compared texts that spell out the report, other changes |
| DiffCache.NeverStaleExactly | radar-api/src/diffs.rs:1350-1406 | so no answer of any run is stale if and only if no report and comparison among the requests contradict each other |
| SchemaReport.FingerprintIsSchema | radar-core/src/proto.rs:172-256 | the protobuf scanner comes to a named message in the fingerprint of any report about one certain path, whatever else it says, and so accepts it |
| ProtoScanner.LineCommentGoes | radar-core/src/proto.rs:132-146 | a comment to the end of the line leaves only the line break |
| ProtoScanner.BlockCommentGoes | radar-core/src/proto.rs:147-160 | a comment in the middle of a line leaves nothing |
| ProtoScanner.BlocksNest | radar-core/src/proto.rs:454-472 | a block inside a block is skipped whole |
| SchemaReport.ComparisonMeetsReport | radar-api/src/diffs.rs:1350-1378 | under the format "proto" such a report, then a comparison of its fingerprint with itself: answered with the report's change, though equal texts have none |
| BlastRadius.BuildQuery | radar-api/src/diffs.rs:769-796 | from the changed paths to the rows: the simplified query selects, of usage, call sites and collections, exactly the rows that some change names, for all tables and consumers |
| BlastRadius.UsageQueryIsExact | radar-api/src/diffs.rs:837-870 | the usage query returns the events of the last 30 days that some change names, and none if it is skipped |
| BlastRadius.CallQueryIsExact | radar-api/src/diffs.rs:888-945 | the same for call sites, which are matched by field alone |
| BlastRadius.CollectionQueryIsExact | radar-api/src/diffs.rs:947-980 | the same for unexpired collection evidence, where a missing field rules nothing out |
| BlastRadius.CuttingKeepsNewest | radar-api/src/diffs.rs:857 | keeping any k newest rows before the age limit keeps the newest timestamp and whether any row is left, however ties fall |
| BlastRadius.LimitIsInvisible | radar-api/src/diffs.rs:986-1113 | so the limit never changes whether a consumer appears, its flags, its confidence or its last sighting |
| BlastRadius.VerdictIsThatOfAllRows | radar-api/src/diffs.rs:837-1113 | a consumer's entry exists exactly if some relevant row passes the age limit, with the verdict all such rows give |
| ImpactVerdict.VerdictMeans | radar-api/src/diffs.rs:1073-1113 | a consumer has an entry exactly if some relevant row passes the age limit; it is "high" exactly if some such usage is at most 7 days old, "low" exactly if there is neither usage nor a collection, else "medium"; the last sighting is the newest such row, and each flag says whether its kind has one |
| ImpactVerdict.FiveAreListed | radar-api/src/diffs.rs:857-870 | at most five rows of each kind are listed, all relevant and young enough, and up to five relevant usages are all listed |
| ImpactVerdict.AnswerNamesExactly | radar-api/src/diffs.rs:798-822 | a consumer is in the answer exactly if it is of the service's organisation or of none, is subscribed or has a collection on file there, and has a relevant row that passes the age limit |
| ImpactVerdict.TargetMeans | radar-api/src/diffs.rs:769-786 | a path without an arrow names an operation; behind its first arrow stands the field, of which a leading "response." is no part |
| ImpactVerdict.UsageRowsMean | radar-api/src/diffs.rs:837-870 | relevant usage is that of the consumer and service in the last 30 days whose operation changed as a whole or whose field changed |
| ImpactVerdict.CallRowsMean | radar-api/src/diffs.rs:888-945 | a call site is relevant if its operation changed as a whole, or a field of its name in any operation |
| ImpactVerdict.CollectionRowsMean | radar-api/src/diffs.rs:947-980 | a collection is relevant if unexpired and its operation changed as a whole, or the field it names, or any field if it names none |
| ImpactVerdict.WrittenRowMeans | radar-api/src/diffs.rs:1005-1063 | a row written back has the keys of request and consumer, a listed usage or call site behind it, and "high" up to 7 days, "medium" after, for call sites "low" if the operation is blank |
| ImpactVerdict.HighIsWritten | radar-api/src/diffs.rs:1031-1106 | an entry is "high" exactly if one of its rows is written back as "high" |
| BlastRadius.ImpactStore.InsertEvidence | radar-api/src/diffs.rs:1043-1062 | the first row of an id is kept |
| BlastRadius.ImpactStore.CollectItems | radar-api/src/diffs.rs:837-994 | the three queries, each skipped when it has nothing to look for, give the newest rows that a change names |
| BlastRadius.ImpactStore.BlastRadius | radar-api/src/diffs.rs:769-1129 | though reading and writing back alternate, answer and written rows are those of reading everything first |
| BlastRadius.AskingAgainChangesNothing | radar-api/src/diffs.rs:1001-1063 | at one moment, asking again gives the same answer and adds no row |
| BlastRadius.AskingAgainKeepsVerdicts | radar-api/src/diffs.rs:837-1113 | even if the database then picks other rows among equally old ones, the same consumers appear with the same verdicts |
| BlastRadius.EvidenceIsKeptExactly | radar-api/src/diffs.rs:1001-1063 | after a request every listed usage and call item has a row with its own operation and field exactly if no other item, listed or stored, reads the same; the table keeps its keys |
| BlastRadius.ShiftsLoseExactly | radar-api/src/diffs.rs:1014-1023 | with identifiers without colons, exactly if no other item of its diff, consumer and kind has a shifted pair |
| BlastRadius.PairsAgreeExactly | radar-api/src/diffs.rs:1017-1023 | two pairs of operation and field read the same exactly if they are equal or shifted at a colon |
| BlastRadius.EvidenceRowsCollideExactly | radar-api/src/diffs.rs:1014-1023 | with identifiers without colons, two rows get one id exactly if they are of one diff, service, consumer and kind with equal or shifted pairs |
| BlastRadius.ColonsLoseARow | radar-api/src/diffs.rs:1001-1063 | a request on a table of two usage events lists both and leaves one without a row |
| ScanLease.ScanTable.ClaimScan | radar-api/src/scans.rs:287-328 | wins exactly if `last_run_at` still has the value read, NULL included, and only then changes the row |
| ScanLease.ScanTable.SetScanStatus | radar-api/src/scans.rs:569-585 | writes the run's time and status unconditionally and keeps the hash |
| ScanLease.ScanTable.StoreScanSpec | radar-api/src/scans.rs:587-624 | adds the text under its time unless that time is taken |
| ScanLease.ScanTable.FetchPreviousSpec | radar-api/src/scans.rs:555-567 | the text of the newest stored version, or none |
| ScanLease.NoValueIsClaimedTwice | radar-api/src/scans.rs:287-328 | on every run, late and crashing ones included, no value of `last_run_at` is claimed more often than it was written |
| ScanLease.TimesAreDistinct | radar-api/src/scans.rs:587-624 | on every run stored specs stay, and no two have the same time |
| ScanLease.RunsDoNotOverlap | radar-api/src/scans.rs:226-328 | if no run lasts as long as an interval from its claim, there is never more than one run, claims lie an interval apart and `last_run_at` never goes back, crashes and failing statements included |
| ScanLease.ActiveMeansRunning | radar-api/src/scans.rs:287-328 | and the row says "running" whenever a run is under way |
| ScanLease.NeverOverlapsExactly | radar-api/src/scans.rs:226-328 | and only then: an undisturbed tick would at no moment start a second run if and only if every run is always in time |
| ScanLease.OverlapsExactly | radar-api/src/scans.rs:226-328 | from any state the lease has led to, an undisturbed tick leaves two runs exactly if some run is out of time |
| ScanLease.GoesBackExactly | radar-api/src/scans.rs:569-585 | in any state, a step moves `last_run_at` back exactly if it writes the status of a run begun before the time in the row |
| ScanLease.BecomesDueAgain | radar-api/src/scans.rs:240-283 | from any state, a run lost in a crash included, the next undisturbed tick wins the claim exactly from one interval after the time in the row on |
| ScanLease.LateStatusMovesBack | radar-api/src/scans.rs:569-585 | a run as long as its interval can overlap the next one and move `last_run_at` back |
| ScanRunner.RunDueScans | radar-api/src/scans.rs:226-285 | a tick claims every due scan, at the tick's time, and touches no other, unless the read or the claim fails; on each row it ends where it ends in the machine |
| ScanRunner.ExecuteScan | radar-api/src/scans.rs:330-545 | a run with any outcome of the fetch and any failing statements leaves row, stored specs and comparisons as the machine does |
| ScanRunner.DrivenIsARun | radar-api/src/scans.rs:330-545 | what it does is one of the runs of the machine, and ends the job |
| ScanRunner.DrivenLeaves | radar-api/src/scans.rs:330-545 | what a run leaves whose statements succeed: only the status "skipped" or "failed" if the fetch is blocked or fails; else "ok" and the hash of the text, and if that is new, the text, and except on a first run its comparison with the newest text before |
| ScanRunner.StatusIsOutcome | radar-api/src/scans.rs:330-585 | whatever statements fail, the status written is the outcome of the fetch, or the old one stays |
| ScanChain.ChainIsComplete | radar-api/src/scans.rs:430-545 | on runs in time in which no crash or failing statement hits a run between its fetch and its status write, between the runs the hash is that of the newest stored spec, which is the last text fetched, and the comparisons made are exactly the changes between successive fetches |
| ScanChain.CrashBreaksExactly | radar-api/src/scans.rs:452-531 | after such a run, a crash breaks the hash exactly between hash and version, or version and hash, and leaves the change uncompared exactly before its comparison is recorded |
| ScanChain.FailureBreaksExactly | radar-api/src/scans.rs:452-531 | a failing statement, with the rest of the run undisturbed, breaks the hash exactly if it was to write hash or version, and the comparisons exactly if it was to record one or to read a base that is not empty |
| ScanChain.ChangeIsLostExactly | radar-api/src/scans.rs:447-531 | the comparisons can come to cover all changes again exactly unless the comparison was lost or made without its base; then no further run in time ever makes up for it |
| ScanChain.ChangeCanBeLost | radar-api/src/scans.rs:485-507 | for any two texts a run exists in which a crash loses the change between them for good |
| ScanChain.CrashLeavesHashWithoutSpec | radar-api/src/scans.rs:454-471 | a first run that goes down between its two writes leaves a hash without a stored spec |
| ScanChain.ClaimedHashIsCurrent | radar-api/src/scans.rs:255-283 | whoever wins a claim works with the hash that is still in the row, whatever crashes and failing statements came before |
| ScanChain.BaseIsPreviousFetch | radar-api/src/scans.rs:452-507 | the base of every comparison is the text of the successful fetch before it, and differs from the new one |
| RowDispatch.DispatchRow | radar-api/src/csv_runner.rs:418-541 | which attempts are made, that a row counts as failed exactly if it was not sent or its last attempt was not answered below 400, and the exact outcome in every case |
| RowDispatch.SendsMean | radar-api/src/csv_runner.rs:476-500 | without retry one send; with retry a second exactly if the first reply is a network error or a status of at least 500 and no cancellation is seen, a third likewise, and never a fourth |
| RowDispatch.RetriedExactly | radar-api/src/csv_runner.rs:428-482 | a row is retried exactly if the checks pass and its method is GET or HEAD, or one of the four others with retry asked for; no other method is sent |
| CsvRunner.CsvRunJob.CancelRun | radar-api/src/csv_runner.rs:240-262 | cancels pending and running jobs, and reports exactly whether it did |
| CsvRunner.CsvRunJob.FinalizeJob | radar-api/src/csv_runner.rs:387-412 | writes the final status and counters unless the job is cancelled |
| CsvRunner.CsvRunJob.RunRows | radar-api/src/csv_runner.rs:353-383 | the loop over the rows, with cancel requests and failing statements anywhere, moves as the machine does |
| CsvRunner.CsvRunJob.ExecuteCsvRun | radar-api/src/csv_runner.rs:318-329 | the job row the executor leaves is the one the machine ends with |
| CsvRunner.DriveIsARun | radar-api/src/csv_runner.rs:318-383 | what the executor does is one of the runs the following rows are about |
| CsvRunner.CountersDescribeAPrefix | radar-api/src/csv_runner.rs:353-383 | at every moment the counters describe one prefix of the rows sent, in order: how many, and exactly how many of them failed |
| CsvRunner.CountersAreCurrent | radar-api/src/csv_runner.rs:363-384 | before every row is sent, the counters in the job row are those of all rows before it |
| CsvRunner.ProgressFailureEndsTheRun | radar-api/src/csv_runner.rs:375-383 | when the counters cannot be written no further row is sent, and the job ends as failed with the true counters unless it is cancelled |
| CsvRunner.ResultsAreTheRowsInOrder | radar-api/src/csv_runner.rs:675-698 | the result rows are the rows sent whose insert succeeded, in order; without failures rows 1, 2, ... |
| CsvRunner.FinalStatusIsTrue | radar-api/src/csv_runner.rs:387-412 | `completed` only if every row ran and none failed, `completed_with_failures` only if every row ran and some failed, `failed` only with the true counters |
| CsvRunner.CancelledStays | radar-api/src/csv_runner.rs:387-412 | once the job has been marked as running, nothing overwrites a cancellation |
| CsvRunner.AtMostOneMoreRow | radar-api/src/csv_runner.rs:363-366 | after a cancellation at most one more row is recorded, plus one for every failed read of the status |
| CsvRunner.SomeRunsReachTheBound | radar-api/src/csv_runner.rs:363-366 | and for every number of failed reads some run records as many more |
| CsvRunner.CancelSurvivesExactly | radar-api/src/csv_runner.rs:331-338 | a run ends as cancelled exactly if a request was accepted after the job was marked as running, or before when marking it failed |
| CsvRunner.EarlyCancelIsLost | radar-api/src/csv_runner.rs:331-338 | an accepted cancellation can be followed by a run that sends every row |
| CsvRunner.CrashEndsTheRun | radar-api/src/csv_runner.rs:354-412 | after a crash of a started executor nothing is sent or recorded any more, and only a cancellation can still change the job |
| PlaceholderStripper.StripPlaceholders | radar-api/src/csv_runner.rs:643-660 | the scan stays in bounds, ends, and computes the specification the next rows are about |
| PlaceholderStripper.OutputIsPairFree | radar-api/src/csv_runner.rs:643-660 | no opening pair survives, unterminated and nested ones included |
| PlaceholderStripper.UnchangedExactly | radar-api/src/csv_runner.rs:647-658 | exactly the texts without an opening pair are left as they are |
| PlaceholderStripper.StrippingAgain | radar-api/src/csv_runner.rs:655 | a second pass changes nothing exactly if every byte outside the placeholders is ASCII |
| PlaceholderStripper.AsciiStaysStripped | radar-api/src/csv_runner.rs:643-660 | stripping an ASCII text twice is stripping it once |
| PlaceholderStripper.PlaceholderGoes | radar-api/src/csv_runner.rs:648-653 | the first placeholder goes, up to its first closing pair, and the text before it stays |
| PlaceholderStripper.UnclosedTakesTheRest | radar-api/src/csv_runner.rs:650-653 | a placeholder that is not closed takes the rest of the text with it |
| WebhookOutbox.DeliveryTable.RunDeliveryAttempts | radar-api/src/webhooks.rs:490-589 | one to four sends, stopping at the first 2xx; the row ends as the machine's worker leaves it, with any answers and failing updates |
| WebhookOutbox.DeliveryTable.DeliverWebhookEvent | radar-api/src/webhooks.rs:591-660 | sends only if the row was inserted and the URL passes the guard, and then runs the attempts |
| WebhookOutbox.DeliveryTable.PendingDeliveries | radar-api/src/webhooks.rs:718-733 | the sweep loads exactly the pending rows of existing webhooks, each once |
| WebhookOutbox.SentOnlyWhenPersisted | radar-api/src/webhooks.rs:606-626 | on every run nothing is sent before its row has been inserted |
| WebhookOutbox.StatusIsTrue | radar-api/src/webhooks.rs:534-589 | a delivered row got a 2xx answer, and a failed one was refused four times by one worker |
| WebhookOutbox.SendsAreBounded | radar-api/src/webhooks.rs:512-573 | at most four sends for every time a delivery was taken up, over all crashes and restarts |
| WebhookOutbox.SweepTakesUpPending | radar-api/src/webhooks.rs:713-768 | a sweep takes up every pending row of an existing webhook once and no other, and a worker starts exactly if the URL passes the guard |
| WebhookOutbox.DeliveredCanFailExactly | radar-api/src/webhooks.rs:576 | a delivered row can become failed exactly if another worker of the delivery is still trying |
| WebhookOutbox.SweepCanOverlapDelivery | radar-api/src/webhooks.rs:713-768 | a sweep during a first delivery leads there |
| WebhookOutbox.LoneWorkerDecides | radar-api/src/webhooks.rs:513-589 | an undisturbed worker ends with delivered exactly if one of its sends is accepted, else with failed, and touches no other row |
| WebhookOutbox.LoneWorkerRecords | radar-api/src/webhooks.rs:490-588 | the row it leaves: the number of sends, and the text of the last refusal for an error |
| WebhookFaults.CrashStopsExactly | radar-api/src/webhooks.rs:490-588 | a crash writes nothing; the workers lost in it do nothing any more, and the others do to the table what they would have done |
| WebhookFaults.DeletedExactly | radar-api/migrations/022_webhook_deliveries.up.sql:1-3 | deleting a webhook deletes its deliveries and no others, and no later step brings one back |
| RateLimiter.RateLimiter.CheckAndRecord | radar-api/src/lib.rs:117-135 | the answer and the new table, with the count never above the limit |
| RateLimiter.RateLimiter.PruneStale | radar-api/src/lib.rs:106-115 | removes exactly the buckets whose window started two windows ago or more |
| RateLimiter.PruningIsInvisible | radar-api/src/lib.rs:106-115 | prunes anywhere in a run change no answer, even with an instant read before they got the lock |
| RateLimiter.RateBound | radar-api/src/lib.rs:117-134 | in no interval of k windows are more than (k + 1) times the limit allowed for one key |
| RateLimiter.DeniedOnlyAtLimit | radar-api/src/lib.rs:117-135 | a check is denied only if as many checks of its key as the limit says were allowed in the 60 seconds up to it, whatever prunes ran before |
| RateLimiter.BoundIsTight | radar-api/src/lib.rs:117-134 | and that many can be |
| RateLimiter.ZeroIsUnlimited | radar-api/src/lib.rs:119-121 | a limit of zero allows everything |
| PlaceholderRewriter.RewritePlaceholders | radar-api/src/db.rs:44-63 | the loop computes the specification the next rows are about |
| PlaceholderRewriter.PlaceholderIsNumbered | radar-api/src/db.rs:54-58 | each placeholder outside literals becomes the marker that counts the placeholders up to it |
| PlaceholderRewriter.PartIsCopied | radar-api/src/db.rs:50-60 | a part without placeholders is copied as it stands, wherever it stands |
| PlaceholderRewriter.QuotedText | radar-api/src/db.rs:50-54 | a literal with question marks and doubled quotes is such a part |
| PlaceholderRewriter.RoundTrip | radar-api/src/db.rs:44-63 | a decoder gets the original back exactly if no `$` outside literals is directly followed by the number of the next placeholder |
| PlaceholderRewriter.RewritingIsInjective | radar-api/src/db.rs:44-63 | texts without `$` outside literals are never rewritten to the same text |
| PlaceholderRewriter.DollarsCollide | radar-api/src/db.rs:54-58 | with one they can be |
| GlobMatcher.GlobMatch | radar-api/src/utils.rs:273-292 | decides whether the path can be cut into runs that fit the pattern elements, and ends |
| GlobMatcher.TestPath | radar-api/src/utils.rs:264-271 | the same for dotted texts; an empty pattern matches everything |
| GlobMatcher.JoinSplit | radar-api/src/utils.rs:268-269 | splitting at dots loses nothing, so different paths have different segments |
| GlobMatcher.MatchesConcat | radar-api/src/utils.rs:273-292 | two patterns in a row match exactly the paths that split into a part for each |
| GlobMatcher.DoubleStarCollapses | radar-api/src/utils.rs:277-284 | a repeated `**` means the same as one |
| GlobMatcher.LiteralsMatchThemselves | radar-api/src/utils.rs:288-290 | a pattern without wildcards matches itself only |
| GlobMatcher.PlainPatternIsEquality | radar-api/src/utils.rs:264-271 | and as a dotted text it is compared for equality |
| GlobMatcher.TrailingDoubleStar | radar-api/src/utils.rs:260-263 | a trailing `**` selects everything at or below a prefix |
| EvolutionRules.ApplyEvolutionRules | radar-api/src/utils.rs:296-343 | count and order stay, and every change is overridden on its own |
| EvolutionRules.OverrideAt | radar-api/src/utils.rs:320-339 | the first rule that lowers a change decides, and without one nothing happens |
| EvolutionRules.OverrideMeans | radar-api/src/utils.rs:303-339 | a change comes out as it is if no rule of its kind and path asks for less, else with the severity of the first such rule and a note of that rule and of the severity before |
| EvolutionRules.OverrideOnlyRelaxes | radar-api/src/utils.rs:245-258 | severity never rises, falls exactly if some rule lowers it, and nothing else but the note about the rule changes |
| EvolutionRules.TwoApplicationsSuffice | radar-api/src/utils.rs:296-343 | a third application gives what two give |
| EvolutionRules.OneApplicationSuffices | radar-api/src/utils.rs:320-339 | one is final exactly if no rule about the change, later than the first that lowers it, asks for less than that one |
| EvolutionRules.OneApplicationMayNotSuffice | radar-api/src/utils.rs:320-339 | which is not always so |
| Retention.UsageSqlTakesItsValues | radar-api/src/settings.rs:143-159 | for every scope the rewritten statement takes the cutoff as `$1`, the organisations as `$2`, ... in order, and nothing else |
| Retention.CsvSqlTakesItsValues | radar-api/src/settings.rs:162-178 | the same for CSV runs, whose status literals contain no placeholder |
| Retention.Database.ConfiguredRetentionDays | radar-api/src/settings.rs:122-135 | every organisation whose setting reads as a number, once, with that number, and no other |
| Retention.Database.PurgeOldUsageEvents | radar-api/src/settings.rs:143-159 | deletes exactly the events of the scope before the cutoff and counts them |
| Retention.Database.PurgeOldCsvRuns | radar-api/src/settings.rs:162-178 | deletes exactly the finished jobs of the scope before the cutoff and counts them |
| Retention.Database.RetentionTick | radar-api/src/main.rs:169-212 | one tick, whenever its purges read the clock and whichever fail, keeps exactly the rows that no successful purge of a scope deletes; with one clock reading and no failure, exactly those not older than the window of their own organisation |
| Retention.EventFate | radar-api/src/main.rs:173-206 | only the purge of an event's own organisation decides about it, with that organisation's window, in whatever order the organisations come |
| Retention.JobFate | radar-api/src/main.rs:173-213 | the same for a CSV run, which must have finished |
| Retention.ExactlyOneScope | radar-api/src/settings.rs:180-208 | every organisation falls under exactly one scope of a tick, with its own window |
| Retention.SavedWindowIsUsed | radar-api/src/settings.rs:71-101 | a window saved through the settings is the one the job uses |
| Retention.TenantsAreIsolated | radar-api/src/main.rs:165-195 | no other organisation's setting decides about a row |
| Retention.UnreadableSettingsLoseExactly | radar-api/src/main.rs:169-171 | without readable settings an event is lost exactly if it lies between the default window and a longer one of its own, and kept too long exactly if it lies between a shorter one and the default |
| Retention.UnreadableSettingsMistakeJobsExactly | radar-api/src/main.rs:169-171 | the same for finished CSV runs |
| RetentionRuns.EventFateOverPasses | radar-api/src/main.rs:165-206 | over any number of ticks, with settings that change or cannot be read and purges that fail, an event stays exactly if every purge of its own organisation fails or finds it within the window of that tick |
| RetentionRuns.JobFateOverPasses | radar-api/src/main.rs:165-213 | the same for a CSV run, if it has finished |
| RetentionRuns.TenantsAreIsolatedOverPasses | radar-api/src/main.rs:165-195 | two series of ticks that treat one organisation alike leave the same of its rows, whatever the others set and however many scopes that makes |
| RetentionRuns.LostForGoodExactly | radar-api/src/main.rs:169-171 | after a good tick a row is there exactly if its window keeps it and no earlier tick that could not read the settings deleted it by the default window |
| FinishedJobs.ListedExactly | radar-api/src/settings.rs:169 | the statuses in the purge statement are the four a job ends with |
| FinishedJobs.JobIsDeletedExactly | radar-api/src/settings.rs:162-178 | over any number of ticks a job is deleted exactly if its status is in the statement and some purge of its organisation finds it too old |
| FinishedJobs.RunIsDeletedExactly | radar-api/src/csv_runner.rs:387-412 | after any run of the executor the job is deleted once it is old exactly if the final status was written or the job is cancelled; one still waiting, running or left so by a crash stays at any age |
| Decimals.ParseDecimal | radar-api/src/settings.rs:132 | a number written as decimal text reads back as itself exactly if it fits 32 bits |

## Left out

- PlaceholderRewriter.RewritePlaceholders: the 32-bit counter of placeholders cannot overflow on a text that fits in memory, and is a natural number here.
- RateLimiter.RateLimiter.CheckAndRecord: the 32-bit count is a natural number; it is proved never to exceed the limit it is compared with.
- DiffCache.RequestCanFinish: stated for an identifier no diff uses yet, as a version 4 UUID is.
- BlastRadius.AskingAgainChangesNothing: the request reads the clock several times, the model once, and equally old rows at the limit fall the same way both times (AskingAgainKeepsVerdicts is about the other case). File, line and link columns of the evidence are not modelled.
- BlastRadius.ImpactStore.BlastRadius: the early answers for an unknown diff or version and for a foreign organisation are not modelled.
- SchemaReport.FingerprintIsSchema: the scanner is modelled up to the first definition it comes to, after which it never rejects a text. Whether the other two parsers accept a fingerprint is not modelled.
- ScanChain.ChainIsComplete: the scan is the only writer of its service and URL. A comparison counts as made also when a text does not parse or nothing has changed, where the program records no diff.
- ScanRunner.RunDueScans: timestamps that do not parse, which count as overdue, are not modelled; no statement of the program writes one.
- ScanLease.BecomesDueAgain: the interval of a scan is constant during a run, and pausing or deleting a scan is not modelled.
- WebhookOutbox.SweepTakesUpPending: the workers of a sweep are created in one step, and the guard's verdict on a URL is an input.
- Retention.Database.RetentionTick: expired evidence is not purged, and windows too long for the date arithmetic are not modelled.
- RowDispatch.DispatchRow: durations, response bodies, URLs and the substitution of variables are not part of an outcome.
- HTTP handlers, organisation checks, audit events, metrics and the shape of responses.
- Network access, DNS, the guard against private addresses, signatures and log-in.
- The diff engines of radar_core and its parsers beyond the part named above, AI providers, ticket systems, digests, generated tests and release notes, the user interface.
- Plain create, read, update and delete endpoints and their pagination are not modelled.
