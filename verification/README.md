# Verified models of ns-3 / SatCompute core algorithms

This project models eight pieces of the repository that carry an algorithm or a protocol of their own, and
proves what their code promises. Each source file has its own files here:

| files | source | what it is |
|---|---|---|
| TestPool, TestPoolRuns, TestPoolOrder, ResultCollector, PoolOutcome | `test.py` | the worker pool as a state machine over all interleavings, the collector that classifies what comes back, and how the program ends |
| PyText, LicenseTexts, LineChecks, LineFixes, LineVerdicts, StyleFile, StylePipeline, HiddenLicenses, FixRuns | `utils/check-style-clang-format.py` | the line checks, the guard machine that applies one of them to a file, pairs of passes, and whole runs in fix mode |
| EntryOrder, ConfigPaths, ConfigWalks, ConfigEdges | `utils/print-introspected-doxygen.cc` | the depth-first enumeration of configuration paths |
| LibraryOrder | `bindings/python/ns__init__.py` | the layered order in which libraries are loaded |
| RunStatistics | `utils/bench-scheduler.cc` | Welford's online mean and second moment |
| Fairness, FlowCounters | `examples/tcp/dctcp-example.cc` | byte counters and Jain's index in 64-bit arithmetic |
| LargeTransfer | `examples/tcp/tcp-large-transfer.cc` | the resumable periodic writer |
| SatComputeSetup | `contrib/satcompute/satcompute.cc` | mode defaults and validation of the settings |

The code that changes state is written as classes and loops whose contracts name a function of the old state;
the theorems are then lemmas about those functions, or invariants over whole runs.

What the outside world decides is a parameter: the return code of a job (`rc`) and what its results file holds
(`xml`); which characters beyond ASCII the regular expression `\w` matches (`wide`); which type descends from which
(`descends`); how many frames the interpreter's recursion has (`frames`); every answer a socket gives (`answers`).

## Results that contradict what one would expect

Each is proved, with the exact condition where the code meets the expectation only sometimes.

- The pool completes if and only if a processor was found and the limit is not negative, or there is nothing to do
  (`CompletesWithinLimit`). A negative `--jobs` passes the test at test.py:1626 and leaves no worker: the main
  thread then waits for ever (`NegativeLimitHangs`).
- The program raises an exception nobody handles as soon as it collects a suite that was neither skipped nor broken
  and returned 0, 1 or 2 without leaving a results file: the file is opened at test.py:2112, before the `try` at line
  2124. `PoolExitCode` and `SameEndingOnEverySchedule` say exactly when it raises and when it returns 0; in
  `OneSuiteRaises` the counters agree with the number of tests and still no code is returned.
- In fix mode every check accepts its own output (`FixIsFinal`), but a whole fix run can leave a file that the
  license check would still change: the tabs pass, the last of the line passes, can turn a tab inside a license line
  into the blank that makes it one (`TabsRevealLicense`). `FixRunAccepts` says exactly for which files, by a condition
  on the file given (`HidesSomewhere`).
- `Uniquefy` (utils/print-introspected-doxygen.cc:467) takes its argument by value, so the recorded paths are not
  made unique (`RegisteredTwiceRecordedTwice`; `RepeatsIff` and `RepeatsIffLabels` say exactly when an entry occurs
  twice).
- With counters of 4 GiB a perfectly fair group has no index at all, and one flow of 1358187914 bytes among ten
  has an index above one (`FairButUnreported`, `UnfairButAboveOne`); `ExactIff` gives the exact limit of the arithmetic.
- Once the transfer is complete every further callback closes the socket again (`ClosedAgain`).
- `ApplyModeDefaults` promises never to mix a custom workload with the built-in one
  (contrib/satcompute/satcompute.cc:404), but it only looks for options written with two dashes while the parser
  also accepts one (`OneDashMixes`; `MixedWorkloadIff` says exactly when).

## Model

| member | source | states |
|---|---|---|
| TestPool.StepConserves | test.py:1101-1185 | no action of any thread, the signal handler included, loses or duplicates a job |
| TestPool.StepKeepsDiscipline | test.py:1101-1117 | every action keeps: jobs before terminators in the queue, as many terminators outstanding as live workers, no worker gone while a job is left to take |
| TestPool.RunInv | test.py:1101-1185 | the whole invariant (content, queue discipline, order of the main thread) holds after every interleaving |
| TestPoolRuns.NothingLost | test.py:1701-1703 | in every reachable state, interrupted or not, each dispatched job is in exactly one of: to be queued, input queue, a worker's hands, output queue, collected |
| TestPoolRuns.EachCollectedOnce | test.py:1977-1980 | on every complete run the collected jobs are a permutation of the dispatched ones |
| TestPoolRuns.FinalIsQuiet | test.py:2142-2143 | when all threads are joined both queues are empty, all workers have exited and exactly as many jobs were collected as dispatched |
| TestPoolRuns.TerminatorDiscipline | test.py:1951-1957 | a worker that takes a terminator leaves no real job behind it; undelivered terminators match live workers |
| TestPoolRuns.RunsAreFinite | test.py:1101-1185 | no interleaving has more than six steps a job and three a worker, interrupts aside |
| TestPoolRuns.NoDeadlock | test.py:1101-1185 | of the pool alone: while a run is not complete some thread can take a step, provided there is a worker or no job |
| TestPoolRuns.CompletesIff | test.py:1637-1640 | of the pool alone: a complete run exists if and only if there is a worker or no job |
| TestPoolRuns.CompletesWithinLimit | test.py:1626-1640 | the same on the processors found and the value of --jobs: a processor and no negative limit, or no job |
| TestPoolRuns.WorkersWithinLimit | test.py:1626-1640 | a positive limit and the processors found bound the workers, and one of the two is reached; no limit means all processors, a negative one none |
| TestPoolRuns.NegativeLimitHangs | test.py:1626-1640 | with --jobs -1 and one job a state is reached in which nobody can move, and none in which the run is complete |
| TestPoolRuns.InterruptBoundsExecution | test.py:1115-1118 | after the signal only jobs already executing finish with a status, at most one a worker |
| TestPoolRuns.BrokenAreTheUninspected | test.py:1115-1118 | the jobs that end as breaks are, with multiplicity, those no worker had compared with thread_exit when the signal came |
| TestPoolRuns.CollectedBrokenOrAsUsual | test.py:1979-1980 | every collected job is either unchanged but for the break mark, after a signal, or exactly as an uninterrupted worker returns it |
| TestPoolRuns.SameResultsOnEverySchedule | test.py:1101-1185 | without a signal all complete interleavings collect the same multiset of results |
| TestPoolOrder.StepTakesFirst | test.py:1103-1109 | an action leaves the jobs not yet taken as they are, or a worker takes the first of them |
| TestPoolOrder.TakenInOrder | test.py:1599-1701 | in every reachable state the jobs not yet taken are the last ones of the list in its order, so with any number of workers jobs are taken in the order of dispatch |
| TestPoolOrder.OneWorkerInLine | test.py:1101-1185 | with one worker the collected jobs, the output queue, the job in hand and the jobs not yet taken are at every moment the list of jobs in order |
| TestPoolOrder.OneWorkerCollectsInOrder | test.py:1977-1978 | an undisturbed complete run with one worker collects exactly the outcomes of the jobs in the order of dispatch |
| ResultCollector.Collector.Process | test.py:1977-2129 | one turn of the collector loop, with both pops: the counter of the job's return code, or of skips, grows by one and no other; a break changes nothing; it raises exactly when a results file to be read is absent |
| ResultCollector.Collector.Collect | test.py:1969-2013 | the loop ends regularly if and only if no unskipped, unbroken suite with code 0, 1 or 2 lacks its file; then passed, failed, valgrind and crashed are the numbers of jobs run with code 0, 1, 2 and any other, and skipped that of skips |
| ResultCollector.FailedMeans | test.py:1999-2003 | jobs tallied as failed are those run with code 1 |
| ResultCollector.ValgrindMeans | test.py:2004-2008 | jobs tallied as valgrind errors are those run with code 2 |
| ResultCollector.CrashedMeans | test.py:2009-2013 | jobs tallied as crashed are those run with a code below 0 or above 2 |
| ResultCollector.BrokenMeans | test.py:1979-1980 | jobs in none of the counters are those that came back as breaks |
| ResultCollector.Accounting | test.py:1979-2013 | passed + skipped + failed + crashed + valgrind + broken is the number of jobs |
| ResultCollector.ExitZeroIff | test.py:2252-2255 | the comparison of two counters is 0 exactly when every job succeeded or was skipped and none was broken |
| ResultCollector.Collector.Conclude | test.py:1969-2255 | the collector loop and the code after it end in the exception or the exit code that the collected jobs determine |
| PoolOutcome.PoolExitCode | test.py:1977-2255 | over every complete collection, interrupted or not: 0 if and only if no file opened is absent, no job broken, and every job skipped or 0; an exception if and only if some dispatched job came back unbroken as an unskipped suite with code 0 to 2 and no file |
| PoolOutcome.RaisesMeans | test.py:2110-2114 | the jobs for which the collector raises, by skip flag, kind, return code and file |
| PoolOutcome.StopsAtTheFile | test.py:2112-2114 | in runs where the main thread may raise, nothing is collected after the job whose file is absent |
| PoolOutcome.ProcessNeverStuck | test.py:1977-2143 | no deadlock with the exception included: until the process is over, by joining or by raising and all workers leaving, some thread can move |
| PoolOutcome.EndedIff | test.py:1977-2143 | the process is over exactly when no thread can move |
| PoolOutcome.ProcessEnds | test.py:1977-2255 | every run can be continued to such an end |
| PoolOutcome.SameEndingOnEverySchedule | test.py:1977-2255 | without a signal every schedule ends in the same exception or code, told from the jobs alone |
| PoolOutcome.EndingWithInterrupts | test.py:1977-2255 | the same two conditions over every run in which the main thread may raise, interrupted or not |
| PoolOutcome.OneSuiteRaises | test.py:2109-2114 | one suite with code 0 and no results file: the counters match, and every undisturbed run ends in the exception |
| ResultCollector.FailedListExactly | test.py:1993-1998 | who is in the list of failed jobs after all appends and pops |
| ResultCollector.FailedListSplits | test.py:1993-1998 | the failed list keeps the order of collection |
| ResultCollector.OneInFailedList | test.py:1993-2129 | what one job leaves in the list: nothing, itself once, or, for a suite with a nonzero code and no readable PASS or SKIP, itself twice |
| ResultCollector.WhoIsListedAsFailed | test.py:2109-2129 | every job run with nonzero code is listed; one with code 0 only if it is a suite whose results do not say PASS or SKIP |
| PyText.TrimUnique | utils/check-style-clang-format.py:887-888 | `strip` is determined by its decomposition into strippable ends and a core |
| PyText.LinesOfJoin | utils/check-style-clang-format.py:660-661 | lines written with `writelines` are read back unchanged |
| PyText.EndingsAlike | utils/check-style-clang-format.py:660-661 | a file reads the same whichever of the three line endings it has |
| LineChecks.FindTagSound | utils/check-style-clang-format.py:822-823 | what the search returns is a tag the regular expression describes |
| LineChecks.FindTagComplete | utils/check-style-clang-format.py:823 | whenever a line reads as the regular expression says, the search finds that tag |
| LineVerdicts.QuotesVerdict | utils/check-style-clang-format.py:775-779 | a line is rejected if and only if it begins with an include of an ns-3 header in angle brackets |
| LineVerdicts.TagVerdict | utils/check-style-clang-format.py:811-829 | a line is rejected if and only if it has the form of the pattern and its tag is none of the three ignored words |
| LineVerdicts.LicenseVerdict | utils/check-style-clang-format.py:887-891 | a line is rejected if and only if it is a license line within blanks and comment characters |
| LineVerdicts.EmacsVerdict | utils/check-style-clang-format.py:936-943 | a line is rejected, and then deleted, if and only if one of the two editor settings occurs in it |
| LineVerdicts.WhitespaceVerdict | utils/check-style-clang-format.py:974-978 | a line is accepted if and only if it ends with a newline and no blank stands before that |
| LineVerdicts.TabsVerdict | utils/check-style-clang-format.py:1012-1015 | a line is accepted if and only if it has no tab |
| LineVerdicts.ClassesAre | utils/check-style-clang-format.py:823-888 | blanks, word characters and comment characters by their codes |
| LineVerdicts.GuardsAre | utils/check-style-clang-format.py:666-672 | a line switches formatting on or off if and only if one of three texts each stands in it with nothing but blanks around |
| LineChecks.IncludeQuotesGood | utils/check-style-clang-format.py:775-790 | the fixed include line is one line, compliant, with no new tab or carriage return; no guard is touched |
| LineChecks.DoxygenTagsGood | utils/check-style-clang-format.py:811-842 | the same for tags: after the replacement the line has no tag left to find |
| LicenseTexts.LicenseClear | utils/check-style-clang-format.py:863-875 | no license line has an angle bracket, quote, backslash, at sign, colon or control character |
| LineChecks.LicensesGood | utils/check-style-clang-format.py:861-910 | the same for license lines, replaced in place or deleted |
| LineChecks.EmacsGood | utils/check-style-clang-format.py:931-952 | the same for editor comments; no guard is ever deleted |
| LineChecks.WhitespaceGood | utils/check-style-clang-format.py:973-987 | the same for trailing blanks; a guard stays the same guard |
| LineChecks.TabsGood | utils/check-style-clang-format.py:1008-1024 | the same for tabs; a guard stays the same guard |
| LineChecks.ExpandKeepsLayout | utils/check-style-clang-format.py:1016 | each character that is no tab stays in its visual column under stops every 4, and every other column is blank |
| LineVerdicts.TabStops | utils/check-style-clang-format.py:1016 | the columns meant there: a tab goes to the next multiple of four, a line end to zero, any other character one on |
| LineChecks.StripOfExpand | utils/check-style-clang-format.py:1016 | expanding leaves the text between the surrounding blanks as it is, so guards survive |
| LineFixes.QuotesFixIs | utils/check-style-clang-format.py:780 | each angle bracket of an offending include line becomes a quote, every other character stays |
| LineFixes.TagFixIs | utils/check-style-clang-format.py:828-832 | the tag found gets its at sign where it stands; nowhere does anything but a backslash change, and only into an at sign |
| LineFixes.LicenseFixIs | utils/check-style-clang-format.py:897-900 | the identifier replaces the first license line between its comment characters; the other license lines are deleted |
| LineFixes.WhitespaceFixIs | utils/check-style-clang-format.py:974-978 | the line loses exactly its trailing blanks, and complies exactly if those are one newline |
| LineChecks.EveryFixIsGood | utils/check-style-clang-format.py:676-682 | what the file machine needs of any line check holds for all six |
| StyleFile.EnabledMeans | utils/check-style-clang-format.py:664-672 | the flag is on exactly when every "off" guard so far was followed by an "on" guard |
| LineVerdicts.AcceptsMeans | utils/check-style-clang-format.py:664-697 | a file is accepted if and only if every line complies that is not protected by a guard; the whitespace check knows no protection |
| LineVerdicts.FixedMeans | utils/check-style-clang-format.py:674-686 | a fix pass replaces every line by its fix and leaves protected lines as they are |
| StyleFile.OffendersAre | utils/check-style-clang-format.py:676-690 | the flagged lines are, in order, the examined lines that do not comply |
| StyleFile.SourceFile.CheckManually | utils/check-style-clang-format.py:656-697 | early-exit, verbose and fix runs return the verdict "no examined line offends"; all offenders are flagged, or the first; the file changes only in fix mode and only in those lines |
| StyleFile.ReadBack | utils/check-style-clang-format.py:660-695 | the fixed file is read back as its fixed lines without the deleted ones |
| StyleFile.FixedPrefix | utils/check-style-clang-format.py:660-697 | on the fixed file a line is enabled only if it was on the original, although expanding tabs can create guards |
| StyleFile.FixIsFinal | utils/check-style-clang-format.py:660-697 | fixing any file with any check leaves a file on which the same check finds nothing |
| StyleFile.FixTwice | utils/check-style-clang-format.py:692-697 | a second fix run reports compliance and writes nothing |
| StylePipeline.QuotesAfterTabs | utils/check-style-clang-format.py:776 | expanding tabs cannot make an include line offend |
| StylePipeline.DoxygenAfterTabs | utils/check-style-clang-format.py:823 | expanding tabs cannot make a tag line offend |
| StylePipeline.WhitespaceAfterTabs | utils/check-style-clang-format.py:974 | whitespace compliance survives the tabs fix |
| StylePipeline.PassKeeps | utils/check-style-clang-format.py:656-697 | a pass whose line fix keeps another check's verdict keeps it for the file, deleted lines and new guards included |
| StylePipeline.LaterKeepsEarlier | utils/check-style-clang-format.py:422-438 | no later pass undoes an earlier one, licenses before tabs excepted |
| StylePipeline.OnePass | utils/check-style-clang-format.py:692-697 | a fix pass over the file is the function `Passed` on its lines |
| FixRuns.FixFile | utils/check-style-clang-format.py:422-438 | any selection of the passes one after the other is the function `FixRun` on the lines |
| HiddenLicenses.HidesSomewhereIff | utils/check-style-clang-format.py:664-682 | a left-to-right scan with the guards of the file and of its expansion finds exactly the hidden licenses |
| HiddenLicenses.FixScansAlike | utils/check-style-clang-format.py:775-987 | no fix but the tabs fix makes, loses or unguards a line that hides a license |
| HiddenLicenses.PassKeepsHidden | utils/check-style-clang-format.py:656-697 | neither does a whole pass, deleted lines included |
| FixRuns.RunAccepts | utils/check-style-clang-format.py:422-438 | after any selection of the passes in order every check that took part accepts, licenses before tabs excepted |
| FixRuns.LicensesAfterTabs | utils/check-style-clang-format.py:1014-1016 | the tabs pass keeps a file accepted by the license check so if and only if no line of it hides a license |
| FixRuns.FixRunAccepts | utils/check-style-clang-format.py:422-438 | after a fix run over any file with any selection of the checks all of them accept; the license check, with tabs, if and only if no line of the file given is examined before and after expansion, accepted before, and a license after |
| FixRuns.WithoutTabsAllAccept | utils/check-style-clang-format.py:422-438 | a file without tabs comes out of any fix run accepted by every check that took part |
| FixRuns.TabsRevealLicense | utils/check-style-clang-format.py:422-438 | a concrete file the license check accepts and, after a whole fix run, rejects |
| ConfigPaths.StaticInformation.HasAlreadyBeenProcessed | utils/print-introspected-doxygen.cc:421-433 | found exactly when the type is on the stack |
| ConfigPaths.StaticInformation.GetCurrentPath | utils/print-introspected-doxygen.cc:402-412 | the segments of the stack, each after a slash |
| ConfigEdges.PathReads | utils/print-introspected-doxygen.cc:402-412 | the text of a path is that of its parts in order |
| ConfigPaths.StaticInformation.Get | utils/print-introspected-doxygen.cc:435-448 | the recorded paths of one type, in order and with repetitions |
| ConfigEdges.PathsInOrder | utils/print-introspected-doxygen.cc:435-448 | the paths returned keep the order of the list |
| ConfigPaths.StaticInformation.DoGather | utils/print-introspected-doxygen.cc:489-572 | terminates, restores both stacks and appends exactly the entries of the enumeration |
| ConfigPaths.StaticInformation.FollowAttributes | utils/print-introspected-doxygen.cc:498-537 | one recursive call for each pointer attribute but plain Object and each container attribute |
| ConfigPaths.StaticInformation.FollowChildren | utils/print-introspected-doxygen.cc:538-550 | one recursive call for each registered descendant |
| ConfigPaths.StaticInformation.FollowAggregates | utils/print-introspected-doxygen.cc:551-571 | one recursive call for each aggregation in either direction |
| ConfigEdges.EdgesAre | utils/print-introspected-doxygen.cc:498-571 | a type has an edge once for each attribute, registered descendant and aggregation that gives it, and no other edge |
| ConfigEdges.AttributeFollowed | utils/print-introspected-doxygen.cc:498-537 | each pointer attribute not to plain Object leads to its pointee under its name, each container attribute to its items under name and index |
| ConfigEdges.ChildFollowed | utils/print-introspected-doxygen.cc:538-550 | each registered type that is a child of the type is followed under its name |
| ConfigEdges.AggregateFollowed | utils/print-introspected-doxygen.cc:551-571 | each aggregation with the type at an end is followed to the other end |
| ConfigEdges.PlacesAscend | utils/print-introspected-doxygen.cc:498-571 | the edges come in the order of attributes, then of registration, then of aggregation |
| ConfigEdges.DescendantRecorded | utils/print-introspected-doxygen.cc:538-550 | gathering from a type records each of its other registered descendants under its name |
| EntryOrder.Uniquefy | utils/print-introspected-doxygen.cc:465-471 | the sorted copy without repetitions has exactly the entries of the list |
| EntryOrder.TextLessMeans | utils/print-introspected-doxygen.cc:469 | the order of texts is that of dictionaries |
| ConfigWalks.UniqueHasNoRepeats | utils/print-introspected-doxygen.cc:465-471 | a list such as `Uniquefy` makes has no entry twice |
| ConfigPaths.StaticInformation.Gather | utils/print-introspected-doxygen.cc:481-487 | after the call of `Uniquefy` the list is still the one `DoGather` left |
| ConfigWalks.WalksAre | utils/print-introspected-doxygen.cc:489-572 | the enumeration lists a walk if and only if it repeats no type and avoids those on the stack |
| ConfigWalks.WalksOrdered | utils/print-introspected-doxygen.cc:498-571 | the walks come in the order of their edges, parents first, none twice |
| ConfigWalks.GatherMeaning | utils/print-introspected-doxygen.cc:489-572 | from empty stacks the entries are, one for one and in order, those of all walks from the root that repeat no type |
| ConfigWalks.SimpleIsShort | utils/print-introspected-doxygen.cc:493-496 | no recorded path is longer than the number of types not on the stack |
| ConfigWalks.GetMeaning | utils/print-introspected-doxygen.cc:435-448 | a path is returned as often as it was recorded for the type |
| ConfigWalks.RepeatsIff | utils/print-introspected-doxygen.cc:465-487 | the list keeps an entry twice if and only if two different walks without repetition end at one type with one text |
| ConfigWalks.RepeatsIffLabels | utils/print-introspected-doxygen.cc:465-572 | with names free of slashes: if and only if two such walks end at one type with the same labels |
| ConfigWalks.RegisteredTwiceRecordedTwice | utils/print-introspected-doxygen.cc:551-571 | an aggregation registered twice, in either direction, gives repeated entries |
| LibraryOrder.DependencySorter.ModulesThatCanBeLoaded | bindings/python/ns__init__.py:444-455 | the pending libraries all of whose dependencies are loaded, in order |
| LibraryOrder.DependencySorter.MoveModules | bindings/python/ns__init__.py:464-469 | the loop moves exactly these from the pending list to the step and the loaded list |
| LibraryOrder.DependencySorter.DependencyOrder | bindings/python/ns__init__.py:457-472 | the recursion ends within its frames exactly when some step leaves nothing pending |
| LibraryOrder.DependencySorter.Sort | bindings/python/ns__init__.py:474-479 | completes exactly on closed acyclic graphs, given a frame a library and one more; the result is a permutation with every library after its dependencies |
| LibraryOrder.LoadableIsLayer | bindings/python/ns__init__.py:444-455 | at step k the loadable libraries are those whose longest chain has k links |
| LibraryOrder.LayerIsLongestChain | bindings/python/ns__init__.py:457-472 | a library's step is the length of its longest chain of dependencies |
| LibraryOrder.WithinMeans | bindings/python/ns__init__.py:447-451 | the recursive bound on chains is the bound on all chains |
| LibraryOrder.Progress | bindings/python/ns__init__.py:464-466 | in a closed acyclic graph something can always be loaded while something is pending |
| LibraryOrder.SortedIsDependencyOrder | bindings/python/ns__init__.py:474-479 | the concatenated steps are a permutation in which each library follows all its dependencies |
| LibraryOrder.CompletesIff | bindings/python/ns__init__.py:460-472 | with more frames than libraries the recursion ends if and only if the graph is closed and acyclic; on any other graph no number of frames is enough |
| RunStatistics.SquaresShift | utils/bench-scheduler.cc:345-349 | how the squared deviations change with their centre |
| RunStatistics.LaterSample | utils/bench-scheduler.cc:345-349 | one update takes the exact mean and moment of n samples to those of n + 1 |
| RunStatistics.AccumulateExact | utils/bench-scheduler.cc:336-349 | the first update is exact whatever the average starts from, and every later one |
| RunStatistics.BenchSuite.Log | utils/bench-scheduler.cc:321-359 | for two or more runs each of the six averages is the mean and each moment the sum of squared deviations, nonnegative and zero only for equal samples |
| RunStatistics.MeanIsBest | utils/bench-scheduler.cc:345-349 | the mean is the only centre with the least squared deviations |
| Fairness.GroupFairness | examples/tcp/dctcp-example.cc:180-186 | the loop with wrapping operations yields the true sums modulo 2 to the 64 and the quotient of their wrapped products |
| Fairness.CauchySchwarz | examples/tcp/dctcp-example.cc:186 | the squared sum is at most n times the sum of squares, with equality exactly for equal counters |
| Fairness.ExactIff | examples/tcp/dctcp-example.cc:180-186 | nothing overflows if and only if n times the sum of squares stays below 2 to the 64 |
| Fairness.SmallCountersAreExact | examples/tcp/dctcp-example.cc:180-186 | counters at most M with n M below 2 to the 32 are safe |
| Fairness.JainBounds | examples/tcp/dctcp-example.cc:186 | the exact index lies between 1/n and 1; 1 means equal counters, 1/n a single active flow, and no number that all are zero |
| Fairness.EqualCountersReport | examples/tcp/dctcp-example.cc:186 | under wrap-around equal counters still report 1, unless the wrapped square of their sum is zero |
| Fairness.FairButUnreported | examples/tcp/dctcp-example.cc:186 | ten equal counters with no index |
| Fairness.UnfairButAboveOne | examples/tcp/dctcp-example.cc:186 | an index above one |
| FlowCounters.Counters.TraceSink | examples/tcp/dctcp-example.cc:114-130 | adds a packet's size to one counter, modulo 2 to the 64, and changes no other |
| FlowCounters.Counters.InitializeCounters | examples/tcp/dctcp-example.cc:132-147 | all forty counters are zero |
| FlowCounters.Counters.Run | examples/tcp/dctcp-example.cc:114-147 | after any run each counter holds what its flow received since the last reset, modulo 2 to the 64 |
| FlowCounters.CountedSinceReset | examples/tcp/dctcp-example.cc:558 | what is counted is what was delivered in the stretch after the last reset |
| FlowCounters.Counters.PrintFairness | examples/tcp/dctcp-example.cc:173-239 | each group's index and both aggregate byte sums, of the right counters |
| FlowCounters.IndexAfterRun | examples/tcp/dctcp-example.cc:173-217 | after any run with small enough counts the index printed is Jain's index of the bytes received, within its bounds |
| LargeTransfer.Application.constructor | examples/tcp/tcp-large-transfer.cc:94-99 | the buffer holds the beginning of the stream |
| LargeTransfer.Application.WriteUntilBufferFull | examples/tcp/tcp-large-transfer.cc:210-232 | for any socket behaviour: accepted bytes stay a prefix of the stream, no write leaves the buffer, the count is what the answers allow, and the socket is closed exactly at the full length |
| LargeTransfer.Application.StartFlow | examples/tcp/tcp-large-transfer.cc:198-208 | the same for the first call |
| LargeTransfer.StreamGrows | examples/tcp/tcp-large-transfer.cc:216-226 | a piece of the buffer at the offset modulo its size continues the stream, because 26 divides that size |
| LargeTransfer.StreamSpells | examples/tcp/tcp-large-transfer.cc:95-99 | the stream is the alphabet over and over |
| LargeTransfer.OfferIsLargest | examples/tcp/tcp-large-transfer.cc:215-219 | each write offers as much as buffer, transfer and space allow, and no more |
| LargeTransfer.OneTurn | examples/tcp/tcp-large-transfer.cc:213-227 | no space or a failed write ends a call where it stands; any other write, of no bytes too, counts and the loop goes on |
| LargeTransfer.Transfer | examples/tcp/tcp-large-transfer.cc:198-232 | over any sequence of callbacks: accepted bytes are the stream's first `Total`, and every close came at 2000000 |
| LargeTransfer.NeverClosedEarly | examples/tcp/tcp-large-transfer.cc:228-231 | closed at all if and only if complete, and then once for each call from the completing one on |
| LargeTransfer.ClosedAgain | examples/tcp/tcp-large-transfer.cc:228-231 | every callback after completion closes again |
| LargeTransfer.FillsTheBuffer | examples/tcp/tcp-large-transfer.cc:213-227 | a socket that takes what fits is filled to the last byte, or the transfer completes |
| LargeTransfer.CompletesWithTheSpace | examples/tcp/tcp-large-transfer.cc:213-231 | with such a socket the transfer completes if and only if the space offered in all calls together suffices |
| SatComputeSetup.SuppliedIff | contrib/satcompute/satcompute.cc:385-396 | "supplied" means set by an argument with two dashes |
| SatComputeSetup.MatchesIff | src/core/model/command-line.cc:224-262 | the textual test agrees with the parser on arguments with two dashes |
| SatComputeSetup.ParsedAssigned | src/core/model/command-line.cc:681-708 | a string option set on the command line holds the first word of the last argument that sets it, whatever the default |
| SatComputeSetup.ParsedFailsIff | src/core/model/command-line.cc:681-708 | the program ends for want of a value if and only if some argument sets the option to no word |
| SatComputeSetup.FirstWordIs | src/core/model/command-line.h:832-840 | reading a value skips leading blanks and stops at the next one |
| SatComputeSetup.TwoDashes | src/core/model/command-line.cc:224-262 | name and value of an option with two dashes, split at the first equals sign |
| SatComputeSetup.OneDash | src/core/model/command-line.cc:224-262 | an option with one dash is read alike, and does not count as supplied |
| SatComputeSetup.WithoutValue | src/core/model/command-line.cc:224-262 | an option without equals sign has the empty value, an argument without a dash is no option |
| SatComputeSetup.SatComputeConfig.ApplyModeDefaults | contrib/satcompute/satcompute.cc:383-418 | the branches in sequence amount to one independent rule for each field |
| SatComputeSetup.FaultTraceDefault | contrib/satcompute/satcompute.cc:413-417 | with faults on and no trace named, the trace goes to fault-trace.json in the output directory, one slash between |
| SatComputeSetup.DefaultsLeaveAlone | contrib/satcompute/satcompute.cc:397-412 | a named trace stays; without topologyOnly so do fault mode and link metrics, and a workload of which both files or none are supplied |
| SatComputeSetup.HalfWorkload | contrib/satcompute/satcompute.cc:404-412 | one file supplied drops the other, and none means no file |
| SatComputeSetup.ModeDefaultsIdempotent | contrib/satcompute/satcompute.cc:383-418 | a second application changes nothing |
| SatComputeSetup.AcceptedIsCoherent | contrib/satcompute/satcompute.cc:260-379 | accepted settings have both workload files or none, a fault trace exactly with faults, a frozen input exactly for replay, and for topology runs no workload, no faults, no link metrics, no audit |
| SatComputeSetup.AcceptedIff | contrib/satcompute/satcompute.cc:260-379 | settings are accepted if and only if no single setting is wrong, each with its own condition, and otherwise a wrong one is named |
| SatComputeSetup.MixedWorkloadIff | contrib/satcompute/satcompute.cc:404-409 | when a custom file ends up beside a built-in one: exactly if set with a single dash, no topology run, both paths usable |
| SatComputeSetup.WorkloadOrigin | contrib/satcompute/satcompute.cc:397-411 | otherwise accepted settings have no workload, the built-in one, or one wholly from the command line |
| SatComputeSetup.IncompatibleOptions | contrib/satcompute/satcompute.cc:382-402 | a topology run keeps, and is then refused for, an incompatible option exactly if it was written with two dashes |
| SatComputeSetup.PositiveSecondsIff | contrib/satcompute/common/time-conversion.cc:26-42 | in exact arithmetic, durations are accepted from half a nanosecond up to 63 bits of nanoseconds |
| SatComputeSetup.NearestNanosecond | contrib/satcompute/common/time-conversion.cc:32-41 | in exact arithmetic, the conversion is to the nearest nanosecond |
| SatComputeSetup.PlainRunIsAccepted | contrib/satcompute/para.cc:12-138 | a command line without options leaves the built-in settings, which pass, keep their workload, and put the fault trace into /tmp/satcompute-output |
| SatComputeSetup.TopologyRunIsAccepted | contrib/satcompute/satcompute.cc:397-402 | with topologyOnly as the only option the built-in settings pass as a topology run |
| SatComputeSetup.OneDashMixes | contrib/satcompute/satcompute.cc:404-409 | a command line that runs a custom profile with the built-in tasks and is accepted |

## Left out

- test.py: starting processes, XML, HTML and text reports, names of skipped and failed tests, and the choice of what to run; a job is its number, kind, flags and return code.
- test.py: a job is one object passed from hand to hand; the model passes values, which is the same as long as one thread holds it at a time, as `NothingLost` shows.
- ResultCollector.Collector.Process: the results file is an oracle that is absent, or present with or without PASS or SKIP; that its copy into the report can fail in other ways is not modelled.
- ResultCollector.Collector.Collect: that the loop always ends regularly is false of the code; the contract says exactly when it does.
- The style checks of include prefixes, encoding and clang-format, the search for files, the process pool, and the message texts, of which the model keeps the line numbers.
- FixRuns.FixRunAccepts: a fix run is any selection, in order, of the six passes modelled; include prefixes before them and formatting and encoding after them are not part of it, nor is the table from file types to checks.
- Regular expressions: the three patterns are written as scanners; the one with structure is proved to agree with its grammar.
- ConfigPaths.StaticInformation.FollowChildren: IsChildOf is a relation given from outside; that it is transitive or free of cycles is not needed and not assumed.
- The lookup of type names in RecordAggregationInfo, GetNoTypeIds, and all printing of print-introspected-doxygen.cc.
- ns__init__.py: discovery of libraries, extraction of names from binaries, the version filter and loading; the graph is given, and the shared default argument `steps` is empty because the one call is the first.
- bench-scheduler.cc: the timed runs, the event population and the printed standard deviation; all arithmetic is over real numbers.
- FlowCounters.Counters.PrintFairness: the averages and the conversion of both sums to rates are not modelled, nor is the rounding of the quotient to a double.
- dctcp-example.cc: the printed throughputs and the queue reports; the three vectors are only reserved in the source and have their reserved length here.
- tcp-large-transfer.cc: the simulated network; a socket's answers are any finite list, so a socket that accepts nothing for ever without failing is not represented.
- satcompute.cc: protection options and their validation, fault parameters, path resolution and the run itself.
- SatComputeSetup.ParsedAssigned: of the command line only string options are parsed, flags and numbers are not.
- SatComputeSetup.PositiveSecondsIff: exact real arithmetic instead of the extended precision of the source.
