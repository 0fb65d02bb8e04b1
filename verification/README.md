# A model of the distros test framework's algorithms and protocols

This Dafny project models the parts of the test framework that decide something: how the log of an
end-to-end run becomes a report, how a rerun is requested and claimed, how nodes are waited for, created,
filled and replaced, and how templates, kubeconfigs, listings and service actions are handled. Each module
follows one component. Loops, classes and updates in place are methods proved against a specification;
protocols are state machines over single steps, with every interleaving and a crash at any point; what the
component is for is proved about the specification as lemmas. What a specification function computes is
stated a second time without it, in the literals of the code, wherever that is not plain from its main
results: the lemmas whose names end in `Meaning` and the ones they lead to. `dafny verify dfyconfig.toml`
checks everything.

| module | component |
|---|---|
| `AnsiCleaner`, `Streaming`, `LogScanner`, `TornResults` | the scanner that finds test results in output that arrives in chunks |
| `EventFold`, `FoldDetails`, `RowEffect`, `LogReport` | the fold of `go test -json` rows into details and suite counters |
| `Regroup`, `CaseReport`, `RunReport` | the regrouping for Slack and Qase, and the calls to Qase |
| `Timestamps`, `RerunRequest`, `RerunProtocol`, `RerunSafety` | finding rerun requests in a thread, and the state file shared by pollers and reporters |
| `NodeWatch` | waiting for nodes to become ready |
| `FanOut`, `ReplacePlan` | goroutines over buffered channels, and the plan that replaces a cluster's nodes |
| `Substitution`, `SeparatedTemplates`, `Kubeconfig` | templates filled from a map; the server address of a kubeconfig |
| `SortedCompare`, `PairCoverage`, `ServiceRunner` | comparison of listings, all-pairs checks, systemd actions |
| `Options`, `Text`, `StringOrder` | Go's strings and optional values, as far as the above use them |

## What holds, and what holds only under a condition

Where a promise is not kept by the code on all inputs, the model keeps the code and the exact condition is
proved:

- Chunks are cleaned of escape sequences one at a time. That equals cleaning the whole log exactly when no
  chunk boundary falls inside an escape sequence (`AnsiCleaner.CleanChunks`). In a run over any number of
  chunks such a boundary changes what is reported, compared with the same boundary behind the sequence, if
  and only if the sequence lies inside the block of a test result; that result is then lost, and nothing else
  (`TornResults.TearMattersIff`, `TornLoses`).
- Suite counters account for all details exactly when no replaced suite record had counted any
  (`EventFold.ExactIffNothingOverwritten`); in particular when no two rows make a record under the same name,
  which the rows alone decide (`ExactWhenNoneFlushedAgain`). A test of the same name that passes later hides
  an earlier failure (`LaterPassHidesFailure`).
- The record of a suite counts what was recorded between the flush before its own and its own, of whatever
  test (`FoldDetails.RecordCountsInterval`). Its counter is the number of details in its own group exactly when
  the foreign details counted with it are as many as the own ones that are not (`SuiteMatchesIff`), and so
  always in a log in which tests run one at a time (`OneAtATimeCountsOwn`).
- When a test fails, its group has a failed detail right after that row if and only if the failure is not masked
  by a pending failure of another test (`FoldDetails.FailedDetailIff`), and then to the end; in a log in which
  tests run one at a time no failure stays masked (`OneAtATimeShowsFailure`). `RunReport.ReportE2ETestRun`
  carries that through to the results submitted. `PendingFailureMasks` is a log of two rows after which a
  failing test is reported as passed, although the total counts a failure.
- A failing test is always counted. A failing *package* row makes a record without a failure exactly when
  nothing pending failed (`EventFold.FailureIsCounted`), and such records do occur.
- Timestamps are compared as strings. Where they are of one shape that is the order of the times they denote
  (`Timestamps.StampOrder`), and the request taken is the latest (`RerunRequest.FindRerunRequest`); for
  `"10.0"` and `"9.0"` it is not (`Timestamps.StampExamples`).
- Requests are executed at most once in every run in which no poller publishes a claim that was made before
  (`RerunSafety.OnceWithoutRepeats`); when one is about to publish an executed claim again, the run can go
  on and execute it again (`RepeatExecutesAgain`). Runs are of the safe kind if the sections of the state file
  between read and rename do not overlap. Neither the lock file, which is a read followed by a write, nor
  anything else in the code enforces this, so it is an assumption, `RerunProtocol.Serial`; without it two poll
  cycles, or a poll cycle and a report, execute a request twice (`OverlappingPollersExecuteTwice`,
  `OverlappingReportExecutesTwice`). The other assumption is that Slack gives every new thread a new
  timestamp (`Post` in `RerunProtocol.Enabled`).
- The initial count of ready nodes is the number of ready names exactly if no ready node is listed a second
  time (`NodeWatch.InitialCount`); the wait then needs so many ready nodes less
  (`NodeWatch.WaitForNodesReady`). A deleted node goes on counting by its last status, since the kind of a
  watch event is not looked at.
- Replacing the servers deletes each old one exactly once precisely when there are three
  (`ReplacePlan.DeletesEachOnceIffThree`). The comments speak of deleting all of them. As an instance that is
  gone cannot be deleted again, the upgrade can complete only with three servers (`DeletesTwice`). With a single
  server the code indexes out of range after the first join.
- The order in which a map of replacements is visited matters for some template if and only if two keys
  interfere: one value has a dollar sign at which another key begins, or could begin if the value went on
  (`Substitution.OrderMattersIff`, for keys that begin with their only dollar sign and are prefix-free, and
  for templates in which every dollar sign begins a key). For the registry file that is a condition on its
  four values (`Substitution.RegistryOrderMatters`); a password like `pa$word` is harmless
  (`Substitution.HarmlessDollar`). In templates in which a separator comes after every key, as in the registry
  file, what a value ends in does no harm either: there the order matters for some template if and only if a
  value holds another key (`SeparatedTemplates.SeparatedOrderMattersIff`).
- Replacing the address in a kubeconfig and reading it back gives the new address exactly if that has no
  colon and no line break: it fails for IPv6 (`Kubeconfig.RoundTripExactly`). The guards of that statement
  are for names that make a `server: ` or an `https://` together with the text around them, which a port after
  the colon and an old address that does not occur before the server line rule out.
- The test "slice parameters must have equal length" only rejects inputs of which both neighbouring lengths
  differ, and its other message says "not less than or equal to 2" where two are accepted; the model follows
  the code (`PairCoverage.TestCrossNodeService`).

## Model

| member | source | states |
|---|---|---|
| `AnsiCleaner.EscapeLength` | pkg/qase/process.go:92 | the match of the escape pattern at the front of a text: found if there is one, of whatever length |
| `AnsiCleaner.EscapeMeaning` | pkg/qase/process.go:92 | an escape sequence is the escape character, a bracket, any digits and semicolons, and `m` or `K`, and nothing else is one |
| `AnsiCleaner.EscapeGoes` | pkg/qase/process.go:271 | an escape sequence at the front of a text is removed |
| `AnsiCleaner.PlainStays` | pkg/qase/process.go:271 | a character at which no escape sequence begins stays |
| `AnsiCleaner.CleanSplit` | pkg/qase/process.go:271 | cleaning two pieces leaves what cleaning the whole leaves if the cut is not inside an escape sequence, and more characters if it is |
| `AnsiCleaner.CleanChunks` | pkg/qase/process.go:270-274 | for any number of chunks: cleaning chunk by chunk equals cleaning the whole log if and only if no boundary falls inside an escape sequence |
| `Streaming.StreamIsBatch` | pkg/qase/process.go:270-274 | any scanner that continues from what it kept reports and keeps the same, however the text is cut into chunks |
| `LogScanner.ParseUnique` | pkg/qase/process.go:283-357 | noise, balanced blocks and an unfinished rest: no text can be read that way twice |
| `LogScanner.RunLosesNothing` | pkg/qase/process.go:274-372 | conservation of text over any number of calls: what was received is the consumed noise and blocks, from which the results come, followed by what is kept |
| `LogScanner.RoundTrip` | pkg/qase/process.go:279-372 | whatever blocks are written with whatever noise between them, the scan finds exactly those blocks in order and keeps the rest |
| `LogScanner.ParseContinues` | pkg/qase/process.go:273-274 | scanning the kept text with the next chunk continues the scan of the whole |
| `LogScanner.StreamingEqualsBatch` | pkg/qase/process.go:270-375 | for every split of the cleaned text into chunks, the same results and the same remainder as one scan over all of it |
| `LogScanner.ChunkingDoesNotMatter` | pkg/qase/process.go:270-375 | the same for the raw log, when no boundary falls inside an escape sequence |
| `TornResults.CutInEscapeLosesResult` | pkg/qase/process.go:271-333 | for every accepted block, every raw text that cleans to it with an escape sequence inside, and every cut inside that sequence: the result is lost, and cleaned as a whole the same text reports it |
| `TornResults.Locate` | pkg/qase/process.go:279-372 | every boundary between two texts lies in noise, inside exactly one block, or in unfinished text |
| `TornResults.TearMattersIff` | pkg/qase/process.go:270-375 | for any chunks before and behind: a boundary inside an escape sequence changes the results, compared with the same boundary behind the sequence, if and only if the sequence lies inside the block of a result |
| `TornResults.TornLoses` | pkg/qase/process.go:332-355 | then that one result is lost, and every other result is reported as before |
| `LogScanner.FindOpen` | pkg/qase/process.go:282-295 | the next opening brace, with none before it, or that there is none |
| `LogScanner.FindClose` | pkg/qase/process.go:305-320 | the closing brace that completes the block opening here, or that every prefix leaves it open |
| `LogScanner.DepthMeaning` | pkg/qase/process.go:303-312 | the brace count is the number of opening braces less that of closing ones |
| `LogScanner.ReportedMeaning` | pkg/qase/process.go:332-341 | a block yields a result of verdict failed, passed or skipped if and only if it decodes, its kind has `k3s test` or `rke2 test` in it and its state is `failed`, `passed` or `skipped`; the result has the name, kind and time of the block, and any other block yields nothing |
| `LogScanner.Emit` | pkg/qase/process.go:332-355 | an accepted block becomes the current result and pushes out the one before it; the reported sequence grows by the one result that the block stands for, with the verdict that its state names, or by nothing if it does not decode or is of no known kind and state |
| `LogScanner.ScanBlocks` | pkg/qase/process.go:276-363 | the index loop computes the results of the unique parse and stops where its rest begins |
| `LogScanner.Extractor.ExtractTestOutput` | pkg/qase/process.go:270-375 | one call: results and new remainder are those of one scan over the old remainder and the cleaned chunk |
| `EventFold.UpsertKeeps` | pkg/qase/process.go:531-538 | the upsert keeps names unique, puts the record in, and leaves every other record in its place |
| `EventFold.NamesStayUnique` | pkg/qase/process.go:130-193 | in every run suite names are unique after every row |
| `EventFold.CountsAreConserved` | pkg/qase/process.go:130-193 | after every row and for each verdict: details = counted by suites + pending + overwritten |
| `EventFold.ExactIffNothingOverwritten` | pkg/qase/process.go:516-539 | counters never exceed the details, and equal them if and only if no replaced record had counted any |
| `EventFold.StateFollowsRows` | pkg/qase/process.go:130-193 | the current suite name and the completed tests depend on the rows alone, not on what their output holds |
| `EventFold.EmbeddedFollowRows` | pkg/qase/process.go:222-226 | the tests remembered as having results are exactly those named by some row so far with results in its output, none forgotten; what the scanner keeps follows the rows as well |
| `RowEffect.StepMeaning` | pkg/qase/process.go:130-193 | the effect of one row in full, in the literals of the code: details, own detail, counters, record, both sets and the kept text; the next state is the only one that fits |
| `RowEffect.RunMeaning` | pkg/qase/process.go:120-193 | a log begins with everything empty, and each row has that effect |
| `EventFold.ExactWhenNoneFlushedAgain` | pkg/qase/process.go:130-193 | when no two rows make a record under one name, the counters of every verdict equal its details after every row |
| `EventFold.EveryRecordWasFlushed` | pkg/qase/process.go:182-192 | every record comes from a completing row and holds the counters pending at it |
| `FoldDetails.RowAdds` | pkg/qase/process.go:130-179 | a row adds the details found in its output, in order, then at most one for its test, and nothing without a test |
| `FoldDetails.RecordCountsInterval` | pkg/qase/process.go:182-192 | every record counts exactly the details recorded between the flush before its own and its own |
| `FoldDetails.SuiteMatchesIff` | pkg/qase/process.go:516-539 | a counter equals the details in the suite's own group if and only if as many foreign details are counted with it as own ones are not |
| `FoldDetails.OneAtATimeCountsOwn` | pkg/qase/process.go:130-193 | when the rows run one test at a time, every counter of every suite is the number of such details in its own group |
| `FoldDetails.FailedDetailIff` | pkg/qase/process.go:137-179 | after a row that fails a test its group has a failed detail if and only if the failure is not masked: some output of the test has held results, none of them failed, and a failure of another test is pending |
| `FoldDetails.FailedDetailStays` | pkg/qase/process.go:137-179 | an unmasked failure leaves a failed detail in the test's group at the end of the log |
| `FoldDetails.OneAtATimeShowsFailure` | pkg/qase/process.go:130-193 | when the rows run one test at a time, a test whose last completion is a failure has a failed detail in its group |
| `FoldDetails.PendingFailureMasks` | pkg/qase/process.go:163-179 | for any two tests: a log of two rows in which the second test fails and has passed details only |
| `EventFold.FailureIsCounted` | pkg/qase/process.go:137-192 | a record made for a failing row counts no failure if and only if the row completes a package and nothing pending failed |
| `EventFold.FailureStaysVisible` | pkg/qase/process.go:130-193 | a test whose last completion is a failure has a record that counts a failure, whatever else the log holds |
| `EventFold.GreenFailureIsPackageLevel` | pkg/qase/process.go:187-192 | a failing record that counts no failure comes from a failing package row |
| `EventFold.PackageFailureCanLookGreen` | pkg/qase/process.go:187-192 | such a record does come about: a package that fails before its test completes |
| `EventFold.LaterPassHidesFailure` | pkg/qase/process.go:531-535 | for every test name and times: a failing row and a passing one, after which the counted failure has vanished from the suites |
| `LogReport.LogFold.UpdateTestDetails` | pkg/qase/process.go:213-258 | one detail for each result, in order, with the name, verdict and time in minutes of the result, each counted under its verdict; the test joins the ones with results, and none leaves |
| `LogReport.LogFold.UpdateTestSuiteDetails` | pkg/qase/process.go:516-539 | the search loop puts the record of the pending counters in the place of the first one of the current name, or at the end |
| `LogReport.LogFold.ProcessRow` | pkg/qase/process.go:130-193 | one row takes the accumulator, both "seen" sets and the scanner's remainder to the next state of the fold, which is the one of the table of `RowEffect` |
| `LogReport.LogFold.ProcessRows` | pkg/qase/process.go:120-193 | the loop over all rows computes the fold |
| `LogReport.ProcessTestData` | pkg/qase/process.go:101-196 | no report without rows; else the regrouping of the fold; the status is FAILED if an included suite counts a failure, in particular if the last completion of an included test is one, and PASSED otherwise; the architecture is `amd64` if none is given; and the cases of the report are, up to their ids, the details of the included suites, each as often as recorded |
| `LogReport.FoldIsOneScan` | pkg/qase/process.go:130-136 | the details found in the output of all rows are the results, in order, of one scan over the cleaned chunks put together, and what that scan keeps is what is kept at the end |
| `LogReport.FoldIsScanOfLog` | pkg/qase/process.go:270-375 | and of one scan over the cleaned log, when no chunk ends inside an escape sequence |
| `LogReport.DetailsAreFoundOrOwn` | pkg/qase/process.go:130-179 | after every row the details are those found in output together with one for every row that completes a test of which no output so far held results, or that fails although nothing pending did, and no others |
| `LogReport.OwnsAreFew` | pkg/qase/process.go:137-179 | of these a test has no more than it has completions |
| `LogReport.FailedTestIsReported` | pkg/qase/process.go:554-588 | that failure reaches the reported total |
| `LogReport.TotalsMatchDetails` | pkg/qase/process.go:550-588 | when every suite is included, a reported total equals the number of details with that verdict if and only if nothing is pending and no counted record was replaced |
| `LogReport.TotalsMatchGroups` | pkg/qase/process.go:554-588 | in a log in which tests run one at a time, for every product and architecture, a reported total equals the number of details with that verdict in the groups of the report |
| `Regroup.ExtractId` | pkg/qase/process.go:616-727 | any of the ids whose entries match, in no fixed order; none if none matches |
| `Regroup.IncludedMeaning` | pkg/qase/process.go:732-759 | left out are, of k3s on arm64, exactly the tests whose name without the prefixes `Test_` and `E2E` and in lower case has no `docker` in it, or one of five names |
| `Regroup.SelectMeaning` | pkg/qase/process.go:554-585 | the included suites are taken in their order, all of them, unchanged but for the plan, which is 16 for rke2 and 17 otherwise |
| `Regroup.CasesOf` | pkg/qase/process.go:567-577 | the details of one suite, all of them, in order, identified where an id exists and otherwise unchanged |
| `Regroup.ProcessData` | pkg/qase/process.go:543-599 | the included suites in order, under the plan of the product, groups aligned with them by index and name, totals their sums |
| `Regroup.RegroupingIsAPartition` | pkg/qase/process.go:554-588 | the groups together hold every detail of the included suites exactly as often as the log does, and nothing else |
| `Regroup.ReportIsAPartition` | pkg/qase/process.go:554-598 | the same for the report itself: its cases, up to their ids, are the details of the included suites, each as often as the log holds it |
| `Regroup.SelectNames` | pkg/qase/process.go:554-558 | the suites kept are exactly those whose names are included |
| `Regroup.SelectUnique` | pkg/qase/process.go:554-585 | the filter keeps names unique and invents none |
| `Regroup.FailureReachesTotal` | pkg/qase/slack.go:302-307 | a failure counted by an included suite makes the total, and so the status, show it |
| `Regroup.StatusMeaning` | pkg/qase/slack.go:302-307 | the status is FAILED if an included suite counts a failure and PASSED if none does |
| `CaseReport.CollectCaseIds` | pkg/qase/create.go:95-108 | every positive id of the report once, in a list without duplicates, and no other |
| `CaseReport.TestSuiteDetailsToTestCase` | pkg/qase/report.go:210-239 | a case for each detail of each group, in order, named by suite and test, with the verdict and id of the detail and its time cut off toward zero |
| `CaseReport.TruncateMeaning` | pkg/qase/report.go:229 | a time is cut off to the whole number next to it on the side of zero |
| `CaseReport.GroupCases` | pkg/qase/report.go:242-248 | the map groups all cases with a positive id, in order, and has no empty group |
| `CaseReport.ParseBulkResults` | pkg/qase/report.go:241-295 | one result for each id, made of its group, for every order in which the map is visited |
| `CaseReport.AnyFailedMeaning` | pkg/qase/report.go:254-270 | a group is failed if and only if some case with that id failed |
| `CaseReport.TimeIsConserved` | pkg/qase/report.go:259-260 | summed over the ids, the elapsed time is that of all cases with a positive id |
| `CaseReport.ListingsAgree` | pkg/qase/report.go:252 | two listings of the same ids are equal up to order |
| `CaseReport.DeclaredEqualsReported` | pkg/qase/create.go:95-108 | declared ids and reported ids agree as multisets, each once; a result is failed if and only if one of its cases is, and its time is that of its cases; no time is lost or counted twice |
| `CaseReport.ReportSummary` | pkg/qase/report.go:65-87 | which calls are made, in which order, for every answer of the service: the run declares all ids, results are submitted to the created run if its id fits 32 bits and there are any, and the run is completed only after that succeeded; a created run without an id makes it panic |
| `CaseReport.FailedDetailIsReported` | pkg/qase/report.go:241-295 | every failed detail with a real id is submitted as a failed result for that id |
| `RunReport.OpenFailureIsReported` | pkg/qase/report.go:59-88 | a test whose last completion is an unmasked failure, or any in a log in which tests run one at a time, is submitted as failed for one of its ids |
| `RunReport.ReportE2ETestRun` | pkg/qase/report.go:59-88 | from the rows of the log to the calls: nothing is called for a log that cannot be read or is empty; else the calls report the regrouped log, and every such failing test with ids is submitted as failed |
| `RerunRequest.ParseMeaning` | cmd/rerunpoller/main.go:428-444 | a message is a request if and only if, in lower case, it is `rerun:` and `failed` with white space only around and between |
| `Text.CapitalsMeaning` | cmd/rerunpoller/main.go:430 | the 26 capital letters become the small ones |
| `Text.LowerMeaning` | cmd/rerunpoller/main.go:430 | besides them only the dotted capital I and the Kelvin sign change |
| `Text.SpaceMeaning` | cmd/rerunpoller/main.go:429 | the white space that is trimmed, all 25 characters of it |
| `RerunRequest.IsChannelMember` | cmd/rerunpoller/main.go:328-384 | member if on a page read before an error, unknown if an error comes first, not a member otherwise |
| `RerunRequest.FindRerunRequest` | cmd/rerunpoller/main.go:108-150 | the last eligible message: not the thread's own, newer than the stored timestamp, a request, by a confirmed member; none if there is none; where the timestamps are of one shape and the replies in order of time, it is the reply with the greatest time among those by a member that ask for the failed tests at a later time than the stored one |
| `RerunRequest.NewestRequestWins` | cmd/rerunpoller/main.go:117-145 | in a thread ordered by time, a message is chosen if and only if it is eligible and no eligible one is newer |
| `StringOrder.LessMeaning` | cmd/rerunpoller/main.go:124 | one string is below another if and only if it is a proper prefix of it or has the smaller character where they first differ |
| `Timestamps.StampOrder` | cmd/rerunpoller/main.go:124 | for timestamps of one shape, digits, a dot and digits, comparing the strings is comparing the times they denote |
| `RerunProtocol.StepKeeps` | cmd/rerunpoller/main.go:152-185 | every step of pollers and reporters keeps the invariant of the protocol |
| `RerunSafety.RunKeeps` | cmd/rerunpoller/main.go:254-291 | the invariant holds in every state of every serial run, with crashes between any two steps |
| `RerunProtocol.NewClaimIsGreatest` | cmd/rerunpoller/main.go:275-291 | a timestamp that is about to be published is above every one claimed in its thread |
| `RerunSafety.OnceWithoutRepeats` | cmd/rerunpoller/main.go:152-185 | in every run, serial or not, in which no poller publishes a claim made before, each request of a thread starts at most one execution |
| `RerunSafety.SerialNeverRepeats` | cmd/rerunpoller/main.go:117-156 | serial runs are of that kind |
| `RerunSafety.ExecutedAtMostOnce` | cmd/rerunpoller/main.go:152-185 | in every serial run each request of a thread starts at most one execution |
| `RerunSafety.SupersededIsNeverExecuted` | cmd/rerunpoller/main.go:117-156 | once a request is claimed, no older unclaimed one of its thread is executed at any later time |
| `RerunSafety.ExecutedAreReplies` | pkg/qase/slack.go:564-592 | in every serial run every request executed is newer than the message that opened its thread |
| `RerunSafety.ExecutedWereAskedFor` | cmd/rerunpoller/main.go:108-185 | in every run, serial or not, whatever is executed was asked for: a record with a thread and a channel was loaded, the last eligible reply in it was chosen, the claim was stored before, and there were failed tests to run |
| `RerunSafety.OverlappingReportExecutesTwice` | pkg/qase/slack.go:594-627 | a run in which a report writes back a timestamp read before a poll cycle, and a request is executed twice |
| `RerunSafety.OverlappingPollersExecuteTwice` | cmd/rerunpoller/main.go:187-207 | a run in which two poll cycles load the record before either publishes, and a request is executed twice |
| `RerunSafety.RepeatExecutesAgain` | cmd/rerunpoller/main.go:275-291 | whenever a poller is about to publish a claim that was executed, some continuation executes it again |
| `RerunSafety.LowTimestampExecutesAgain` | cmd/rerunpoller/main.go:108-185 | whenever the stored timestamp is below an executed request of its thread that is still eligible, one more poll cycle executes it again |
| `RerunSafety.PollCycle` | cmd/rerunpoller/main.go:108-185 | an undisturbed cycle claims and executes the eligible request and leaves nothing else changed |
| `RerunSafety.PollExecutes` | cmd/rerunpoller/main.go:152-185 | an undisturbed cycle stores the timestamp and changes nothing else in the record, and then runs the tests that the record says failed |
| `RerunSafety.ReportCycle` | pkg/qase/slack.go:594-627 | the undisturbed report of a rerun stores the new failed tests and keeps channel, thread and timestamp |
| `RerunSafety.FreshReport` | pkg/qase/slack.go:564-592 | the undisturbed report of a fresh run stores a record of the new thread, with the thread as the last timestamp, whatever was stored before |
| `RerunSafety.CrashAnywhere` | cmd/rerunpoller/main.go:275-291 | a process can stop at any point, and what is in the files stays there |
| `NodeWatch.NodeReady` | pkg/k8s/node.go:158-166 | ready if and only if some condition is `Ready` with status `True` |
| `NodeWatch.ReadyNamesStep` | pkg/k8s/node.go:133-146 | how one status update moves the number of ready names |
| `NodeWatch.InitialCount` | pkg/k8s/node.go:78-90 | the initial counter is at least the number of ready names, and equal if and only if no ready node is listed again |
| `NodeWatch.LastSeenMeaning` | pkg/k8s/node.go:78-90 | the status of a name is that of the last item listed under it |
| `NodeWatch.AfterMeaning` | pkg/k8s/node.go:138-140 | after the events it is that of the last event of the name, or the one listed |
| `NodeWatch.Watcher.CheckInitialNodesReady` | pkg/k8s/node.go:54-93 | when it fails; the threshold, which is the number of nodes if 0 or more than there are were asked for; the last status of every name; and the counter |
| `NodeWatch.Watcher.WatchNodesReady` | pkg/k8s/node.go:100-156 | nothing changes if the watch cannot be set up; else the counter's distance to the number of ready names never changes; success exactly at the first event after which the count reaches the threshold, failure at the event that breaks the watch before |
| `NodeWatch.WaitForNodesReady` | pkg/k8s/node.go:22-46 | success if and only if the number of nodes last seen ready reaches the threshold, less the nodes the listing made count too often (none if no ready node is listed twice), at once or before the watch breaks off; which failures are reported |
| `FanOut.StepKeeps` | pkg/aws/ec2.go:27-75 | every step of workers, closer and collector keeps the invariant, for instances and for assets |
| `FanOut.RunKeeps` | pkg/testcase/support/airgap.go:173-203 | the invariant holds in every interleaving, for any number of workers |
| `FanOut.NoSendBlocks` | pkg/aws/ec2.go:27-28 | a worker with something to send always finds its channel open and a place free, also after the collector has returned |
| `FanOut.NoDeadlock` | pkg/aws/ec2.go:54-75 | until everything is over some step is enabled |
| `FanOut.RunsEnd` | pkg/aws/ec2.go:31-75 | every step brings the end nearer, so every run is bounded |
| `FanOut.AlwaysFinishes` | pkg/testcase/support/airgap.go:191-202 | a run is stuck if and only if all workers, the closer and the collector are finished |
| `FanOut.AllOrNothing` | pkg/aws/ec2.go:60-75 | an error only if some worker has sent one; otherwise all are done without one, each contributed one result, and index by index the three slices hold the results of one worker |
| `FanOut.WorkersFollowCalls` | pkg/aws/ec2.go:33-50 | in every interleaving a worker has an error to send or has sent it if and only if one of its calls failed, which is then its last; otherwise it has a result after three successful calls |
| `FanOut.ReturnsWhatWasCalled` | pkg/aws/ec2.go:60-75 | an error only if a call failed; success only if no call did, every worker made all of its calls, and the three slices list for every worker once what its third call answered |
| `FanOut.FailsIffACallFailed` | pkg/aws/ec2.go:33-65 | a run that is over ended in an error if and only if a call failed in it |
| `FanOut.BuffersFit` | pkg/aws/ec2.go:27-28 | neither channel ever holds more than its one place for each worker |
| `FanOut.ClosedInOrder` | pkg/aws/ec2.go:54-58 | the closer closes the results first and then the errors, each once |
| `FanOut.SuccessIsPossible` | pkg/aws/ec2.go:33-75 | for any number of workers there is a run in which all calls succeed and every result is returned |
| `ReplacePlan.Upgrade.JoinRemainServers` | pkg/testcase/upgradenodereplacement.go:387-426 | the loop follows its part of the plan, or stops at the first operation that fails |
| `ReplacePlan.Upgrade.ReplaceAgents` | pkg/testcase/upgradenodereplacement.go:547-579 | all old agents are deleted before the new ones join, or it stops at the first failure |
| `ReplacePlan.Upgrade.TestUpgradeReplaceNode` | pkg/testcase/upgradenodereplacement.go:24-62 | with two servers or more, the operations that succeeded are the plan, or the part of it before the first that fails; nothing is done without servers; with a single one the upgrade panics after its join; and if no instance can be deleted twice it completes only with three |
| `ReplacePlan.FirstAt` | pkg/testcase/upgradenodereplacement.go:200-236 | the plan begins with the join of the first created server, the deletion of the last but one of the old ones, the new kubeconfig address and the validation |
| `ReplacePlan.ServerAt` | pkg/testcase/upgradenodereplacement.go:398-423 | for any number of servers: each further one joins at its place in the order of creation and is validated right after, and the last old server is deleted before each join but the last |
| `ReplacePlan.AgentsAt` | pkg/testcase/upgradenodereplacement.go:48-55 | then all old agents are deleted, all new ones join in the order of creation, and the old leader is deleted last; there are 3n + 2m + 1 operations |
| `ReplacePlan.PlanDeletes` | pkg/testcase/upgradenodereplacement.go:200-236 | how often an address is deleted, for any number of servers and agents |
| `ReplacePlan.DeletesEachOnceIffThree` | pkg/testcase/upgradenodereplacement.go:398-423 | every old server is deleted exactly once if and only if there are three |
| `ReplacePlan.DeletesTwice` | pkg/aws/ec2.go:78-123 | unless there are three servers, the plan deletes the instance of one address a second time |
| `ReplacePlan.DeletedLast` | pkg/testcase/upgradenodereplacement.go:52-55 | of the leader and the new servers only the leader is ever deleted, by the last operation |
| `ReplacePlan.LeaderStays` | pkg/testcase/upgradenodereplacement.go:40-55 | the leader is a member before every operation, so every join finds it |
| `ReplacePlan.MembersMeaning` | pkg/testcase/upgradenodereplacement.go:40-55 | members are the servers that joined after they were last deleted, or were there and have never been deleted |
| `ReplacePlan.TwoServersStay` | pkg/testcase/upgradenodereplacement.go:24-62 | with three servers and any number of agents at least two servers are members at every point, also of an upgrade that stops early |
| `ReplacePlan.JoinsAsCreated` | pkg/testcase/upgradenodereplacement.go:398-412 | for every run of the two creations: every server and every agent that joins in the plan does so with the two addresses of one instance created for its kind |
| `Substitution.ReplaceFileContents` | shared/aux.go:577-595 | an error for a file that cannot be read or written; else the replacements in visiting order, and for a template without interfering keys the simultaneous substitution |
| `Substitution.ReplaceOneKey` | shared/aux.go:583-587 | replacing one key changes the occurrences of that key that the template has, and nothing that earlier replacements put in |
| `Substitution.OrderDoesNotMatter` | shared/aux.go:583-587 | when no two keys interfere, every order of visiting the map gives the simultaneous substitution |
| `Substitution.OrdersDiffer` | shared/aux.go:583-587 | when two keys interfere, some template comes out differently in two orders |
| `Substitution.OrderMattersIff` | shared/aux.go:583-587 | the order matters for some template if and only if two keys interfere |
| `Substitution.Tokenize` | shared/aux.go:583-587 | a template is a sequence of plain characters and keys; replacing them all is the simultaneous substitution |
| `Substitution.RegistryOrderMatters` | pkg/testcase/support/airgap.go:382-387 | for the registry file the order matters for some template if and only if one of the four values clashes with the key of another |
| `Substitution.HarmlessDollar` | pkg/testcase/support/airgap.go:382-387 | a dollar sign followed by another letter than the second one of the key clashes with nothing |
| `SeparatedTemplates.SeparatedOrderDoesNotMatter` | shared/aux.go:583-587 | for a given template in which a separator comes after every key: when no value holds another key, every order gives the simultaneous substitution |
| `SeparatedTemplates.SeparatedOrderMattersIff` | shared/aux.go:583-587 | the order matters for some such template if and only if a value holds another key |
| `SeparatedTemplates.RegistryTemplate` | pkg/testcase/support/airgap.go:382-387 | for such a template of the registry file the order does not matter unless one of the four values holds the key of another |
| `SeparatedTemplates.RegistrySeparators` | pkg/testcase/support/airgap.go:382-387 | a quote, a slash and a line break are in none of the four keys |
| `Substitution.DollarInValueMatters` | shared/aux.go:583-587 | two orders with different outcomes when a value has one |
| `Kubeconfig.ExtractPanicsIff` | shared/kubeconfig.go:78 | the extraction indexes out of range if and only if the content has no `server: ` |
| `Kubeconfig.ExtractMeaning` | shared/kubeconfig.go:78-84 | what is read out of any text: the four cuts, at `server: `, the line break, `https://` and the colon |
| `Kubeconfig.ExtractReads` | shared/kubeconfig.go:78-84 | what stands between the first `server: https://` and the next colon is read out, if it has no line break and makes no key or scheme with what follows |
| `Kubeconfig.ExtractLacks` | shared/kubeconfig.go:78-84 | what is read out has no colon and no line break, whatever the content |
| `Kubeconfig.UpdateMeaning` | shared/kubeconfig.go:90-114 | refused exactly without an address, a product or a readable file, and panicking exactly on a file without `server: `; otherwise the text written is the old one with every occurrence of the old address, and nothing else, replaced |
| `Kubeconfig.UpdateChangesServerOnly` | shared/kubeconfig.go:104 | if the old address stands in the server line only, that line has the new one afterwards and the rest of the file is unchanged |
| `Text.SplitMeaning` | shared/kubeconfig.go:78 | splitting cuts a text at the leftmost, non-overlapping occurrences of the separator: the parts joined by it are the text, and no other cut is one |
| `Text.ReplaceMeaning` | shared/kubeconfig.go:104 | replacing all occurrences joins the parts of that cut by the new text; an empty old text stands before every character and at the end |
| `Kubeconfig.FirstStaysFirst` | shared/kubeconfig.go:104 | replacing an address before the first `server: ` puts no `server: ` there, whatever the replacement of digits and dots |
| `Kubeconfig.UpdateKeepsShape` | shared/kubeconfig.go:104 | replacing the old address everywhere rewrites the host and the text on both sides of it separately |
| `Kubeconfig.UpdateThenExtract` | shared/kubeconfig.go:90-114 | for addresses of digits and dots, extracting after the update returns exactly the new one |
| `Kubeconfig.RoundTripExactly` | shared/kubeconfig.go:90-114 | for any new name the round trip returns it if and only if it has no colon and no line break, as long as the replacement makes no `server: ` before the first and none with the text after the name |
| `Kubeconfig.AbsentBeforeFirst` | shared/kubeconfig.go:104 | the first of those guards holds if the old address does not occur before the server line |
| `SortedCompare.CutToKeys` | pkg/testcase/daemonset.go:70-82 | every line is overwritten by its first field, or kept if it has none |
| `SortedCompare.KeyMeaning` | pkg/testcase/daemonset.go:70-75 | the key of a line is its first run of characters that are no white space, or the line itself if it has none |
| `SortedCompare.SortedUnique` | pkg/testcase/daemonset.go:87-94 | a multiset of strings has one sorted listing |
| `SortedCompare.ValidateNodesEqual` | pkg/testcase/daemonset.go:66-97 | true if and only if both texts have the same multiset of keys |
| `PairCoverage.EachPairOnce` | pkg/testcase/networkconnectivity.go:106-120 | the two nested loops visit every ordered pair of different services exactly once and no other pair |
| `PairCoverage.PairsInSequence` | pkg/testcase/networkconnectivity.go:106-120 | towards later services first, both indices rising, and then towards earlier ones, both falling |
| `PairCoverage.PairsInAll` | pkg/testcase/networkconnectivity.go:106-120 | there are n(n-1) checks |
| `PairCoverage.TestCrossNodeService` | pkg/testcase/networkconnectivity.go:68-123 | passes only after all checks succeeded, each with the destination's own port and text; stops at the first failure; when no check fails it panics if and only if there are fewer ports or texts than services; when each input error is reported |
| `ServiceRunner.ManageService.ValidateActions` | shared/manageservice.go:114-135 | accepted if and only if there is an action and all are known |
| `ServiceRunner.CommandMeaning` | shared/manageservice.go:64-90 | which command an action has, and that it has no other: the unit is that of the product and node type, or the service itself if no product is named in it |
| `ServiceRunner.ManageService.Execute` | shared/manageservice.go:137-178 | `start` and `restart` are issued once, any other command until it succeeds or its limit is used up |
| `ServiceRunner.ManageService.RunAction` | shared/manageservice.go:64-108 | the next action adds its tries to the log and succeeds within its limit, or ends the run: no command, or all tries used up |
| `ServiceRunner.ManageService.Manage` | shared/manageservice.go:59-112 | a rejected list runs nothing; else the actions run in order up to the first status query, whose output is returned, the first failure, or the end; in every run `start`, `restart` and a rotation are issued at most once and every other action at most as often as the retries allow; and the action that fails was issued as often as that, or not at all if it has no command |
| `ServiceRunner.IssuedWithinLimits` | shared/manageservice.go:59-112 | in every run, also one that fails: of the actions that succeeded, every `start` and `restart` was issued exactly once and every other at least once and within its limit; none was issued more often, and none after the end of the run |
| `ServiceRunner.IssuedWhenFailing` | shared/manageservice.go:137-178 | in a run that fails, exactly how often each action was issued: the earlier ones once more than they failed, the failing one as often as its limit or not at all if it has no command, no later one |

## Left out

- `ErrorLog` and failure details (pkg/qase/process.go:283-357, pkg/qase/process.go:219-241): free text that depends on the chunking and is replaced for failed results.
- JSON decoding: a function from a block, or a file, to an optional record. The scanner counts braces without regard to JSON strings, as the code does, so nothing is claimed about section 7 of RFC 8259.
- Regroup.ExtractId: the tables of case ids are a parameter, because a name that matches several entries gets whichever is visited first.
- Reading the log files, run dates and total time: the rows are given.
- LogScanner.Extractor.ExtractTestOutput: text is a sequence of characters instead of UTF-8 bytes; braces and escape sequences are single bytes in both.
- RerunRequest.ParseMeaning: white space is that of Unicode; lower case is exact for the ASCII letters that a request is compared with, other letters are left as they are.
- CaseReport.DeclaredEqualsReported: sums of elapsed time are unbounded integers instead of `int64`, and fractions are real numbers instead of floating point.
- RunReport.ReportE2ETestRun: descriptions, comments and the other texts of the requests are not modelled.
- Slack formatting, the failed test directories put into the state file, and the messages of a report: the list of failed tests is arbitrary in `RerunProtocol`.
- RerunSafety.ExecutedAtMostOnce: mutual exclusion is assumed, because the lock file does not provide it; a file that is written but cut short by a crash is not distinguished from one not written, as it is never renamed.
- RerunSafety.PollCycle: the test whether other tests are running is one of the reasons for a process to leave before executing.
- NodeWatch.Watcher.WatchNodesReady: events come as one sequence that ends with the time-out at the latest.
- FanOut.AllOrNothing: what the calls to AWS, SSH and the container tools do is a free choice between success and failure at every call.
- ReplacePlan.Upgrade.TestUpgradeReplaceNode: as many nodes are created as there are old ones; fetching the token, preparing nodes and copying files come before the plan and are not modelled, nor is the final health check, whose failure is only logged.
- SortedCompare.ValidateNodesEqual: the library's sort is stood for by an insertion sort; what matters is that the result is sorted and a permutation.
- PairCoverage.TestCrossNodeService: the polling inside one check is a single outcome, passed or failed.
- ServiceRunner.ManageService.Execute: the retry library is not part of this model; it is taken to make at most the given number of tries, and none for a limit of zero. Delays are not modelled.
- SSH, scp, kubectl, helm, Terraform, AWS and HTTP calls, clocks, delays and base64: abstract steps or parameters.
- Flag validators, SELinux tables, generated enums, shell scripts and the test suites themselves are not modelled.
