# A model of the proctor-signal executor

proctor-signal fetches problems, compiles and judges submissions, and uploads outputs. This project models the parts
of it whose correctness spans several steps, and proves what they promise:

- **The subtask graph** (`model/dag.go`): the depth-first cycle test and the gated first-in first-out traversal, each
  against a graph-theoretic specification, and against each other. `Digraph` has paths and cycles, `Kahn` the record of
  a traversal, `KahnTheory` and `Fifo` its consequences, `SubtaskGraph` the graph of a problem's subtasks.
- **The judging run** (`worker/worker.go`): `Scoring` judges one subtask, `Judging` a problem, `Verdict` sums up;
  `ScoreTheory`, `JudgingTheory`, `Repeats` and `OutputTheory` say what follows. `Upload` is the handshake with the
  uploading goroutine as a step relation over all interleavings.
- **The problem cache** (`resource/manager.go`, `resource/filestore.go`): `Storage` has the index over the disk,
  `TempFiles` what becomes of temporary files, `FetchPool` the ten-worker pool as a step relation, `FetchTries` how
  often it tries, `FetchRuns` runs of it that do occur, `Cache` the lock-counting cache, `ResourceSizes` the sizes it
  asks for, `CacheRuns` what holds after whole runs of it, `ResourceManager` the object that keeps it.
- **The line comparator** (`judge/compare.go`): `Compare` streams two texts through buffers and hashes; `Lines` and
  `CompareTheory` say what its verdict means for the texts.
- **Command templates** (`judge/language.go`): `Templates` has substitution in one and two stages, `Language` the
  configuration that relies on it; `Assignments`, `LanguageTheory` and `Commands` say which variables it fixes and which
  words its commands have.

Objects that the program updates in place are classes here; each method is proved against a specification on values,
and the lemmas are about those values. Answers of the operating system, of the backend and of the sandbox are
parameters, so the theorems hold whatever they are.

Conventions: SHA-1 is a function without collisions whose values are plain file names; a hash used for comparing is
the sequence of bytes written to it; 32-bit counters, sums and scores wrap as in the program; a Go map that misses a
key yields the zero value; integer division truncates toward zero.

Where the code and its documentation disagree, the code is modelled:

- `proto/model.proto:99` promises that a subtask is scored only if its dependencies were accepted. The edges of
  `model/dag.go:95-100` lead the other way, and `worker/worker.go:346` lets a traversal continue after wrong answers, so
  a subtask is judged *before* what it depends on, whatever the verdict on that (`DependentsGoFirst`,
  `WrongDependencyIsIgnored`; `FollowsRuleIff` says when the promise holds).
- `proto/model.proto:42` promises that only the last newline is ignored; `judge/compare.go:155` leaves every newline out
  (`LenientMergesLines`; `LenientMeetsDocumentationIff` says when the promise holds).
- `proto/model.proto:80` promises the least case score; `worker/worker.go:334` starts from zero, so a positive one is
  lost (`MinLosesTheScore`; `MinMeetsDocumentationIff` says when the promise holds).
- `worker/worker.go:287` overwrites the error of an earlier subtask (`ErrorIsLost`; `FailureIsReportedIff` says when
  errors are reported as they should be).
- A failed `os.RemoveAll` (`resource/filestore.go:157`) leaves a cached problem without its files: `AvailableIff` shows
  these entries to be the only ones, `BrokenIff` says after which calls there are any, and `AnyProblemCanLoseItsFiles`
  exhibits such calls. A problem without resources gets no directory, and without one it can never be evicted
  (`WithoutResourcesStays`, `NoDirectoryNoEviction`, `EvictableIff`).
- A truncated file whose rollback fails is taken for a finished one by the next attempt (`resource/filestore.go:84-88`):
  `FetchedSizes` says when a fetch succeeds with a wrong file.
- Admission (`resource/check.go:9-16`) does not look for missing dependencies, and judging dereferences a nil subtask
  then (`CrashesIff`, `AdmittedCrashesIff`).
- A repeated subtask id that nobody depends on is judged as often as it is listed, and scores as often
  (`CallsAreDistinctIff`, `RepeatedScore`, `TwiceListedScoresTwice`).
- `CompileCmd` is evaluated when the configuration is loaded and again per submission (`judge/language.go:116-138`),
  which is not always what one evaluation gives (`OptionsReplaceText`; `CompileCmdInTwoStagesIff` says when it is).
- Which of several rejections becomes the conclusion depends on Go's order of map iteration (`ConclusionIsUniqueIff`).

## Model

| member | source | states |
|---|---|---|
| `Dag.CycleSearch.IsCyclic` | model/dag.go:21-34 | the search from a node answers true only if the outermost node reaches a cycle; otherwise the node and all it reaches are finished and the search stands where it stood |
| `Dag.Graph.IsDAG` | model/dag.go:14-43 | true exactly when no cycle can be reached from the ids, for every graph, also when edges leave the ids |
| `Dag.SearchEnters` | model/dag.go:22-23 | entering a node keeps: stk marks the current path, vis the path and the finished nodes |
| `Dag.SearchLeaves` | model/dag.go:32-33 | leaving a node whose successors are finished keeps the same, and finished nodes lead only to earlier finished ones |
| `Digraph.FinishedReachesNoCycle` | model/dag.go:32-33 | a finished node reaches no cycle |
| `Digraph.ClosesCycle` | model/dag.go:25-27 | an edge back onto the path closes a cycle that the start of the path reaches |
| `Dag.Graph.Release` | model/dag.go:62-68 | releasing a node's edges keeps counter plus released edges equal to the original in-degree and lets exactly those nodes enter the queue, in order, that lose their last edge |
| `Dag.Graph.Traverse` | model/dag.go:47-72 | for every graph and every stateful callback: the calls and answers form a complete traversal, the calls come in exact first-in first-out order, vis marks the called nodes, and counters drop by the released edges |
| `Kahn.ReleaseStep` | model/dag.go:63-67 | one released edge occurrence keeps every node's account of visits, queue entries and counter |
| `Kahn.TraversalStep` | model/dag.go:57-69 | one visit keeps the record of calls ready when made and the queue order |
| `KahnTheory.CallOrder` | model/dag.go:45-72 | each node is called at most once and only after all its predecessors were called and answered true |
| `Fifo.FirstReadyFirstCalled` | model/dag.go:51-69 | for every graph and all answers: whatever is ready once the edges to the first m successors of the c-th call are released is called before everything that is not |
| `KahnTheory.CallsAreFixpoint` | model/dag.go:45-72 | the called nodes are exactly those all of whose predecessors were called and answered true |
| `KahnTheory.CallsAreLeast` | model/dag.go:45-72 | for callbacks that answer by node they are the least such set |
| `KahnTheory.CallsIgnoreListOrder` | model/dag.go:51-68 | that set does not depend on the order of ids or of adjacency lists, nor on repeated edges |
| `KahnTheory.CalledIff` | model/dag.go:45-72 | a node is called exactly if all its ancestors answer true and no cycle leads to it |
| `KahnTheory.TraversalAgreesWithSearch` | model/dag.go:14-72 | a traversal that is never refused visits every node exactly if the cycle test finds none |
| `KahnTheory.ListingLeaves` | model/dag.go:51-68 | it makes no difference to a traversal whether a node that some edge leads to is listed |
| `Dag.Graph.AddEdge` | model/dag.go:75-81 | appends to one adjacency list and counts one more incoming edge |
| `SubtaskGraph.AddEdgeKeepsWellFormed` | model/dag.go:75-81 | an added edge keeps counters equal to in-degrees |
| `SubtaskGraph.CountTargets` | model/dag.go:98-100 | the counters grow by one for every occurrence of a dependency |
| `SubtaskGraph.NewSubtaskGraph` | model/dag.go:87-103 | the graph has the ids, the subtasks, an edge from a subtask to each dependency, and counters of all dependency occurrences |
| `SubtaskGraph.SubtaskGraphWellFormedIff` | model/dag.go:87-103 | it meets the traversal's needs exactly for distinct ids and existing dependencies |
| `SubtaskGraph.ExtendedGraph` | model/dag.go:87-103 | with missing dependencies listed as nodes it meets them for distinct ids alone |
| `SubtaskGraph.DependencyEdgesIff` | model/dag.go:94-101 | an edge leads from u to v exactly when subtask u lists v; edges stay within the ids exactly when all dependencies exist |
| `SubtaskGraph.VerifyProblem` | resource/check.go:9-16 | a problem is admitted exactly when no cycle can be reached from its subtasks |
| `Scoring.JudgeSubtask` | worker/worker.go:275-347 | the subtask's result, from whatever an earlier call has left, its uploaded outputs, the callback's answer and the remaining error, for every sequence of verdicts and every policy |
| `Scoring.RecordCase` | worker/worker.go:301-340 | one verdict extends the record of the first i cases to the first i + 1 |
| `Scoring.SumFits` | worker/worker.go:329-332 | the sum of shares never leaves the range from zero to the subtask's score, so it cannot wrap around |
| `Scoring.TruncDivFits` | worker/worker.go:329 | truncating division loses less than the divisor, for either sign |
| `ScoreTheory.SumMeetsDocumentation` | worker/worker.go:331-332 | under SUM the score is the sum of the case scores, with internal errors and negative scores too |
| `ScoreTheory.SumScore` | worker/worker.go:326-332 | under SUM it is passed times the rounded-down share, within [0, Score], short by less than n if all pass, and full exactly if all pass and n divides Score (or Score is 0) |
| `ScoreTheory.MinScore` | worker/worker.go:333-336 | under MIN the score is the least case score cut off at zero |
| `ScoreTheory.MinMeetsDocumentationIff` | worker/worker.go:333-336 | it is the least case score exactly if some case does not pass or Score is less than n |
| `ScoreTheory.MinLosesTheScore` | worker/worker.go:333-336 | one passed case worth 10 scores 0 |
| `ScoreTheory.AcceptedIff` | worker/worker.go:279-340 | the conclusion is Accepted exactly if every judged case is |
| `ScoreTheory.ConclusionIff` | worker/worker.go:279-340 | the conclusion is that of the last judged case that is not accepted, or Accepted if there is none |
| `ScoreTheory.TimeIsSum` | worker/worker.go:321 | the time of a subtask is the sum over its cases, up to wrap-around |
| `ScoreTheory.PctScore` | worker/worker.go:343-345 | under PCT the score is the percentage for the number of passed cases, and stays zero after an internal failure |
| `Judging.Schedule` | worker/worker.go:255-275 | for every problem, the order in which the traversal calls the subtasks, gated by whether each was judged without internal error |
| `Judging.JudgeOnDAG` | worker/worker.go:250-354 | for every problem, with repeated ids and missing dependencies: crashes exactly if the traversal calls a missing dependency; else results call by call, outputs in order, and the error left at the end; without repeated ids, the result of one run for each subtask called |
| `Judging.RunNodes` | worker/worker.go:275-277 | every call is for a subtask or a missing dependency; what nobody depends on is called as often as it is listed, everything else at most once |
| `Judging.CallsAreDistinctIff` | worker/worker.go:275-277 | for every problem, no subtask is judged twice exactly if every repeated id is a dependency of some subtask |
| `Judging.CalledOnceEach` | worker/worker.go:259-347 | without repeated calls each subtask called has the result of one run, and the others are as they were |
| `Judging.RunIff` | worker/worker.go:258-279 | a subtask counts as run exactly if it was called; until then its conclusion is Invalid and its record empty |
| `Repeats.RepeatedScore` | worker/worker.go:259-347 | under SUM a subtask that nobody depends on scores as many times as its id is listed |
| `Repeats.TwiceListedScoresTwice` | worker/worker.go:259-347 | a subtask worth 10, listed twice, is judged twice and scores 20 |
| `Judging.RunVisits` | worker/worker.go:275-277 | if no dependency is missing, every call gets an existing subtask, and none twice |
| `JudgingTheory.JudgedIff` | worker/worker.go:275-347 | a subtask is judged exactly if no cycle leads to it and no subtask that depends on it, directly or not, fails internally; a missing dependency is called likewise |
| `JudgingTheory.CrashesIff` | worker/worker.go:275-277 | the program crashes exactly if that holds of some missing dependency |
| `JudgingTheory.AdmittedCrashesIff` | resource/check.go:9-16 | without internal errors, an admitted problem crashes it exactly if a dependency is missing, which admission does not check |
| `JudgingTheory.DependentsGoFirst` | worker/worker.go:275-347 | a subtask is judged after all subtasks that depend on it, none of which failed internally |
| `JudgingTheory.AdmittedOrder` | worker/worker.go:275-347 | without internal errors an admitted problem's order lists every subtask once |
| `JudgingTheory.AdmittedFullyJudged` | worker/worker.go:250-354 | then every subtask is marked run with its proper result, and no error is reported |
| `JudgingTheory.FollowsRuleIff` | proto/model.proto:99-100 | on an admitted problem the documented dependency rule holds exactly if subtasks with dependencies have no internal error and all dependencies are accepted |
| `JudgingTheory.WrongDependencyIsIgnored` | worker/worker.go:340-346 | a concrete problem that breaks the rule |
| `JudgingTheory.DependentOfPairGoesFirst` | model/dag.go:95-100 | of two subtasks the dependent one is judged first |
| `JudgingTheory.ErrAfterIff` | worker/worker.go:287-299 | an error is reported exactly if the last judged subtask that has cases fails internally |
| `JudgingTheory.FailureIsReportedIff` | worker/worker.go:287-299 | internal errors are reported as they should be exactly unless a subtask fails and the last one judged after it that has cases does not |
| `JudgingTheory.ErrorIsLost` | worker/worker.go:287-299 | a concrete problem whose internal error is lost |
| `JudgingTheory.IndependentInListOrder` | model/dag.go:51-60 | subtasks without dependencies are judged in the order of the problem |
| `OutputTheory.OutputsOfSubtask` | worker/worker.go:316-319 | within a subtask exactly the long outputs of judged cases are handed over, each once |
| `OutputTheory.OutputsIff` | worker/worker.go:316-319 | over a whole run likewise |
| `OutputTheory.OutputsInOrder` | worker/worker.go:316-319 | outputs are handed over in the order of calls, and within a subtask in the order of cases, with repeated ids too |
| `OutputTheory.ReturnedUploadedAll` | worker/worker.go:316-388 | when an uncancelled run returns, exactly these have been dealt with, each once, and each is stored unless six attempts at it failed |
| `Upload.ConservedStep` | worker/worker.go:270-388 | no step of any participant loses, repeats or reorders an output |
| `Upload.StepOk` | worker/worker.go:270-388 | every step keeps conservation, the channel bound and who may have closed or left what |
| `Upload.ReturnedProcessedAll` | worker/worker.go:349-388 | at return the processed outputs are a prefix, and all of them, in order, without cancellation |
| `Upload.StoredUnlessFailed` | worker/worker.go:368-384 | in an uncancelled run an output is stored exactly if fewer than six attempts at it failed |
| `Upload.FailuresAreCounted` | worker/worker.go:368-384 | for each output, the failures counted are the failed attempts of the run at it |
| `Upload.InHandIsNext` | worker/worker.go:363-368 | what the uploader has in hand is the next output in order |
| `Upload.ChannelsAreOpen` | worker/worker.go:316-351 | nobody sends on a closed channel or closes one twice |
| `Upload.StuckIff` | worker/worker.go:316-388 | the only reachable deadlock: the uploader has left on cancellation and the channel is full |
| `Upload.CanGetStuckIff` | worker/worker.go:270-388 | outputs can lead to that deadlock exactly if there are more than 32 |
| `Upload.RunsAreBounded` | worker/worker.go:270-388 | no run takes more than 8n + 6 steps |
| `Verdict.Summarize` | worker/worker.go:153-161 | total score and time with wrap-around; the conclusion is that of the last listed rejection, or Accepted if there is none |
| `Verdict.ListingOrderIsInvisible` | worker/worker.go:150-161 | totals and acceptance do not depend on the enumeration order of the result map |
| `Verdict.RejectionCanWin` | worker/worker.go:156-160 | any rejection can be listed last and then is the conclusion |
| `Verdict.ConclusionIsUniqueIff` | worker/worker.go:156-160 | for every map of results, the conclusion is the same for all enumerations exactly if all rejections conclude the same |
| `Verdict.ConclusionDependsOnListing` | worker/worker.go:156-160 | a concrete map for which both WrongAnswer and TimeLimitExceeded can be concluded |
| `Verdict.CompleteVerdict` | worker/worker.go:150-161 | on a completely judged problem the total is the sum of the subtask scores, the time that of all cases up to wrap-around, and acceptance means that every case of every subtask is accepted |
| `Verdict.AdmittedIsComplete` | worker/worker.go:143-161 | admitted problems without internal errors are completely judged |
| `Verdict.AcceptanceIff` | worker/worker.go:155-161 | a run that does not crash, without repeated ids, is accepted exactly if every judged case of every judged subtask is |
| `Verdict.LostErrorIsAccepted` | worker/worker.go:155-161 | so the run that loses its internal error ends as accepted |
| `Verdict.TotalIsWithinFullScore` | worker/worker.go:157 | without percentages and negative scores the total lies between zero and the full score |
| `Verdict.TotalDoesNotWrap` | worker/worker.go:157 | and then does not wrap around unless the full score does |
| `Storage.SaveEffect` | resource/filestore.go:64-119 | saving never touches an existing file, whatever fails, and creates no other file or directory than the resource's own; success means the file is there, with the declared size if it is new; a failed save leaves a file only if its rollback fails |
| `Storage.FileStore.SaveResource` | resource/filestore.go:64-119 | the method does what the function does, and keeps the index inside the disk |
| `Storage.SubmitEffect` | resource/filestore.go:121-128 | submitting saved keys, whatever their names, indexes exactly these and keeps the index inside the disk |
| `Storage.FileStore.SubmitResourceKeys` | resource/filestore.go:121-128 | the method does what the function does |
| `Storage.UnindexedIff` | resource/filestore.go:146-154 | an indexed key leaves the index exactly if it belongs to the problem whose directory is listed |
| `Storage.EvictEffect` | resource/filestore.go:130-163 | once the directory is read, exactly the problem's entries leave the index, even if removing files then fails; before, nothing changes |
| `Storage.EvictLeavesIff` | resource/filestore.go:156-160 | after an eviction exactly the files of a directory that was read are gone, but for those that a failed removal left; every other file keeps its content |
| `Storage.FileStore.EvictProblem` | resource/filestore.go:130-163 | the method does what the function does, and keeps the index inside the disk |
| `Storage.GetFindsIndexed` | resource/filestore.go:278-319 | a resource id is found exactly when it is indexed and its key has no slash and is no dot name, under its own name and path |
| `Storage.AddedIdIsFlat` | resource/filestore.go:244-246 | the id of an added file has no slash, for every path |
| `Storage.FileStore.Add` | resource/filestore.go:240-250 | adds one slash-free id, and only for files directly in the temporary directory |
| `Storage.FileStore.Remove` | resource/filestore.go:254-270 | removes the id and its file, or nothing; problem files stay |
| `Storage.BulkRemoveEffect` | resource/filestore.go:216-237 | bulk removal leaves problem files alone for any ids, forgets all of them, and counts the distinct known ones |
| `Storage.BulkFailsIff` | resource/filestore.go:228-236 | an error is returned exactly if the file of a known id cannot be deleted, at its first mention |
| `Storage.FileStore.BulkRemove` | resource/filestore.go:216-237 | the method does what the functions do, count and error included |
| `Storage.TmpRunKeepsProblems` | resource/filestore.go:216-270 | no sequence of Add, Remove and BulkRemove, with any ids and failures, touches a problem file or the index |
| `TempFiles.AddedIff` | resource/filestore.go:240-250 | a file is accepted exactly if its path leads into the temporary directory; its id is its file name, and the given name is recorded |
| `TempFiles.AddedId` | resource/filestore.go:244-246 | so adding a file of the temporary directory by its full path yields its file name as the id |
| `TempFiles.DirectoryIsAdded` | resource/filestore.go:244-246 | the temporary directory itself, with a final slash, is accepted too, under its own name |
| `TempFiles.TmpFoundIff` | resource/filestore.go:308-319 | a temporary file is found exactly if it is on disk, under the name it was added with, or else under its id |
| `TempFiles.DotsFindDirectories` | resource/filestore.go:308-319 | the empty id and the dot names find directories, without any file |
| `TempFiles.AddedIsFound` | resource/filestore.go:240-319 | an added file is found under the name it was added with |
| `TempFiles.RemovedFile` | resource/filestore.go:254-270 | removal succeeds exactly for a known id whose file can be deleted: then that file and that id are gone and nothing else; otherwise nothing changes |
| `TempFiles.RemovedIsNotFound` | resource/filestore.go:254-319 | what was removed is not found any more |
| `TempFiles.BulkDeletesIff` | resource/filestore.go:224-234 | in bulk, a file goes exactly if it belongs to a known id whose first mention did not fail; the others keep their contents |
| `TempFiles.BulkRemovedFoundIff` | resource/filestore.go:216-319 | after a bulk removal a file is found exactly if it was there and its id was not removed, under its plain id once forgotten |
| `Paths.SlashUnique` | resource/manager.go:32-34 | the first slash after a slash-free part can be found again |
| `Paths.JoinPairInverse` | resource/filestore.go:288 | joining two id parts yields an index key only for just these parts |
| `Paths.JoinPairLeadsThere` | resource/filestore.go:288 | a joined and cleaned pair leads where its parts lead one after the other, dot names included |
| `FetchPool.PlacesStep` | resource/manager.go:88-214 | no action of any participant loses or doubles a key |
| `FetchPool.StepOk` | resource/manager.go:88-214 | every action keeps: each requested key in exactly one place, the states of workers, caller and receiver in step, received keys on disk, the index untouched |
| `FetchPool.SendsArePossible` | resource/manager.go:126-193 | feeding never blocks, and nobody sends on a closed channel, in every interleaving |
| `FetchPool.NeverStuck` | resource/manager.go:145-214 | until fetchRes returns some participant can act, cancelled or not |
| `FetchPool.RunsAreBounded` | resource/manager.go:88-214 | no run takes more than 12n + 17 actions |
| `FetchPool.Outcome` | resource/manager.go:195-214 | fetchRes succeeds exactly when no key was given up or left; then it submits each requested key once, all on disk; otherwise the index is untouched; it writes only files of requested keys and their directory; uncancelled it succeeds |
| `FetchPool.FetchedSizes` | resource/filestore.go:83-114 | after a success, a file that is new has its declared size exactly unless an attempt left it behind with another and could not take it back |
| `FetchTries.GivenUpIff` | resource/manager.go:110-135 | in every interleaving a key is given up exactly after six failed attempts at it, or at a failed one during a cancellation |
| `FetchTries.FailureTakesSix` | resource/manager.go:110-135 | unless it is cancelled from outside, a fetch fails only after six failed attempts at the key given up first |
| `FetchTries.AtOnceIff` | resource/manager.go:174-181 | n keys can be in work at the same time exactly if there are n and n is at most ten |
| `FetchRuns.SuccessWithShortFile` | resource/filestore.go:83-114 | for every job that declares a size there is a run that succeeds with a file of another size |
| `FetchRuns.SuccessIsPossible` | resource/manager.go:145-214 | on every store there is a run that succeeds |
| `Cache.ResourcesIff` | resource/manager.go:154-166 | exactly the inputs, the outputs unless a special judge decides, and that judge are fetched, and never the empty key |
| `ResourceSizes.ResourceSize` | resource/manager.go:154-166 | the size declared for a key is unknown for the special judge, and otherwise what the last case says that uses the key: its output size if that is its output to compare with, else its input size |
| `ResourceSizes.SizesOfOneCase` | resource/manager.go:154-166 | one case with an input of 3 and an output of 5 bytes: just these two keys and sizes |
| `ResourceSizes.SizesWithSpecialJudge` | resource/manager.go:158-164 | with a special judge: the input with its size, and the judge with size -1 |
| `ResourceSizes.FetchedAsDeclared` | resource/manager.go:145-214 | after a successful fetch a new file has as many bytes as the last case that uses it says, exactly unless an attempt left it behind with another size |
| `Cache.KeysCollideIff` | resource/manager.go:58-60 | two different ids can get the same entry key, under some versions, exactly if one extends the other by a slash |
| `Cache.EntryKeyInjective` | resource/manager.go:58-60 | slash-free ids share an entry only if id and version agree |
| `Cache.SlashedIdsCollide` | resource/manager.go:58-60 | a concrete pair of ids and versions that share an entry |
| `Cache.AvailableIff` | resource/filestore.go:278-319 | all resources of a cached problem can be read by their ids exactly if it has none, or no failed removal has hit it and their keys are plain names |
| `Cache.PrepareOk` | resource/manager.go:248-288 | preparing, in every branch and for every end of the pool, keeps the cache consistent |
| `Cache.UnlockOk` | resource/manager.go:290-297 | so does the call of an outstanding unlock function |
| `Cache.SuperfluousUnlocksExposeIff` | resource/manager.go:290-297 | superfluous unlocks expose an entry in use to eviction exactly if there are as many as outstanding handles |
| `Cache.EvictAllOk` | resource/manager.go:299-324 | so does evicting, whatever fails |
| `Cache.EvictAllTakes` | resource/manager.go:299-324 | eviction takes exactly the unlocked entries whose directory could be read and removed |
| `Cache.EvictAllBreaks` | resource/manager.go:314-318 | an entry loses its files exactly when its directory was read and then could not be removed |
| `Cache.TemporaryOk` | resource/filestore.go:216-270 | operations on temporary files leave the cache consistent |
| `Cache.FailedFetchOk` | resource/manager.go:278-280 | a failed fetch leaves no trace in the index |
| `Cache.NothingFetched` | resource/manager.go:166-214 | fetching a problem without resources leaves the store exactly as it was |
| `CacheRuns.NoDirectoryNoEviction` | resource/manager.go:299-324 | over every sequence of calls, an entry without a directory stays cached and gets no directory |
| `CacheRuns.EvictableIff` | resource/filestore.go:140-163 | an unlocked entry can be evicted, for some answers of the operating system, exactly if it has a directory |
| `CacheRuns.WithoutResourcesStays` | resource/manager.go:248-324 | a problem without resources, prepared where no directory is left over, is prepared successfully and stays cached for good |
| `CacheRuns.BrokenIff` | resource/manager.go:299-324 | over every sequence of calls, an entry has lost its files exactly if the last eviction that read its directory unlocked could not remove it |
| `CacheRuns.AvailableAfterRunIff` | resource/filestore.go:278-319 | so after any sequence of calls the resources can be read exactly unless that is so, or they have odd names |
| `CacheRuns.AnyProblemCanLoseItsFiles` | resource/filestore.go:156-160 | for every admitted problem with resources, a sequence of calls that ends with the problem handed out without its files |
| `CacheRuns.RunKeepsWhole` | resource/filestore.go:64-163 | over every sequence of calls in which no attempt leaves a wrong file behind, every file was there at first or has the size declared |
| `Cache.RunKeepsCache` | resource/manager.go:248-324 | every sequence of prepare, unlock, evict and temporary-file calls keeps the cache consistent |
| `Cache.LockSafety` | resource/manager.go:248-324 | over whole runs: the lock count is the number of outstanding unlock functions, a locked entry stays cached, and as long as no removal fails its resources can be read exactly if their keys are plain names |
| `Cache.PreparedIsAsked` | resource/manager.go:248-288 | what is handed out has id and version that spell the request, cached under its own key and locked once more; its resources can be read exactly if no failed removal has hit them and they have plain names |
| `Cache.AskedId` | resource/manager.go:58-60 | it has another id than the request only if one extends the other by a slash |
| `Cache.FlatPreparedIsAsked` | resource/manager.go:248-288 | with slash-free ids it is the problem asked for |
| `Cache.GrantedIff` | resource/manager.go:248-288 | a request is granted exactly if the key asked for is cached, or the backend sends a problem that is cached, or one that is admitted and whose resources are all fetched |
| `Cache.GrantedOrUntouched` | resource/manager.go:261-287 | a rejection changes no entry and no lock; a grant adds one lock to one entry and changes no other |
| `CacheRuns.InUseIsGranted` | resource/manager.go:248-288 | after any run, a problem with an outstanding unlock function is handed out again whatever the backend answers, without touching the store |
| `Cache.FoundByJudgeIff` | judge/judge.go:290-297 | under the ids by which the judge asks, plainly named resources are found exactly if they are intact and neither id nor version is empty |
| `ResourceManager.Manager.CollectKeys` | resource/manager.go:154-166 | the loop collects these resources with their sizes |
| `ResourceManager.Manager.FetchRes` | resource/manager.go:145-214 | the object ends with the store of the pool's run, indexed if and only if that succeeded |
| `ResourceManager.Manager.PrepareThenLock` | resource/manager.go:248-288 | the object follows the specification and stays consistent |
| `ResourceManager.Manager.Unlock` | resource/manager.go:290-297 | counts one lock less on an existing entry, for any problem; as the call of an outstanding unlock function it keeps the cache consistent |
| `ResourceManager.Manager.EvictEntry` | resource/manager.go:306-321 | likewise, for one entry; the answer is the error of the removal |
| `ResourceManager.Manager.EvictAll` | resource/manager.go:299-324 | likewise; no error exactly if every unlocked entry was read and removed |
| `Compare.Reader.ReadSlice` | judge/compare.go:134 | what a buffered read returns: through the newline, a full buffer, or the rest |
| `Compare.IterHash` | judge/compare.go:129-161 | for every text and buffer size: hashes what is kept of the next line, and reports its end |
| `Compare.HashesTell` | judge/compare.go:188-190 | after equal lines the hashes of one more line each are equal exactly when these lines are; otherwise a common line differs, so the early exit is sound |
| `Compare.CompareLines2` | judge/compare.go:163-214 | for every pair of texts and buffer size: the verdict is that common terminated lines agree and so do the whole texts; with a broken input it is false if a common line differs and an error otherwise |
| `Lines.KeptArePlainIff` | judge/compare.go:143-146 | buffers drop nothing but line endings exactly if no buffer ends in a stray CR |
| `Lines.JoinInjective` | judge/compare.go:158 | lines joined by newlines determine the lines |
| `Lines.PlainLinesJoined` | judge/compare.go:216-225 | lines without their endings, joined, are the text with CRLF replaced by LF |
| `CompareTheory.StrictComparesLines` | judge/compare.go:163-214 | strictly, the verdict is equality of the kept lines |
| `CompareTheory.RightAnswersPass` | judge/compare.go:163-214 | for all texts, buffer sizes and both modes: texts that agree up to CRLF are accepted |
| `CompareTheory.StrictIsEqualityUpToCrlf` | judge/compare.go:163-214 | for all texts and buffer sizes: equality up to CRLF is strict acceptance together with dropping the same stray CRs at the same places |
| `CompareTheory.KeptAndStraysTell` | judge/compare.go:143-146 | what is kept of the lines and where CRs are dropped determine the plain lines |
| `CompareTheory.StrictWithoutStrays` | judge/compare.go:163-214 | without a stray CR at a buffer end the strict verdict is equality up to CRLF |
| `CompareTheory.StrictForCleanTexts` | judge/compare.go:163-214 | it is equality up to CRLF whenever every CR precedes an LF, for every buffer size |
| `CompareTheory.BufferSizeInvisible` | judge/compare.go:129-161 | for such texts the lines hashed are the same for every buffer size |
| `CompareTheory.BufferSizeInvisibleIff` | judge/compare.go:129-161 | for every text, the lines hashed are the same for all buffer sizes exactly if every CR ends the text or precedes an LF |
| `CompareTheory.FinalCrIsDropped` | judge/compare.go:216-225 | a final CR is ignored by the strict comparison at every buffer size, though CRLF replacement keeps it |
| `CompareTheory.FinalCrExample` | judge/compare.go:216-225 | the single letter a with and without a final CR, at every buffer size |
| `CompareTheory.StrayCrDependsOnBuffer` | judge/compare.go:143-146 | a CR inside a line is dropped by the buffer that it fills and kept by a buffer for the whole line, so the verdict depends on its place |
| `CompareTheory.StrayCrIsLostAt4096` | judge/compare.go:143-146 | 4095 letters, a CR and a letter pass for the letters alone at the standard buffer size |
| `CompareTheory.LenientComparesRemainders` | judge/compare.go:155-157 | with newlines ignored: the common terminated lines agree, and the remainders agree without line ends |
| `CompareTheory.VerdictIsSymmetric` | judge/compare.go:163-214 | the verdict is symmetric and reflexive |
| `CompareTheory.OneMoreLineEnding` | judge/compare.go:155-157 | a text matches itself plus one LF, or plus one CRLF if it does not end in CR, with newlines ignored, and never otherwise |
| `CompareTheory.LenientMergesLines` | judge/compare.go:155-157 | inner newlines are ignored too, and the relation is not transitive |
| `CompareTheory.LenientMeetsDocumentationIff` | proto/model.proto:42 | for texts whose every CR precedes an LF, the documented relation is the lenient one restricted to texts at most one final line ending apart |
| `Templates.TokensLoseNothing` | judge/language.go:88-95 | the tokens of a template spell the template |
| `Templates.TokensOfOutput` | judge/language.go:86-96 | how the output of the first stage splits into tokens again, without stray dollar signs and with separated names |
| `Templates.StagedEvaluation` | judge/language.go:86-96 | for templates and values without stray dollar signs, and separated names, evaluating early under fewer variables and again later gives what one late evaluation gives |
| `Templates.StagedEvaluationIff` | judge/language.go:86-96 | for every template and table: evaluating early is harmless for all later tables exactly if the output, read again, leaves the same text and names as the template |
| `Templates.SeparatedIff` | judge/language.go:86-96 | for templates and values without stray dollar signs this is so exactly if no unresolved name comes to stand before a word character |
| `Templates.AgreeForAllValuesIff` | judge/language.go:86-96 | two templates agree for every value of one variable exactly if they have the same shape around it |
| `Templates.StrayDollarCanCapture` | judge/language.go:86-96 | after a stray dollar sign a value becomes a name, which the second stage replaces and a single stage does not |
| `Language.LanguageConf.Normalize` | judge/language.go:98-118 | fails exactly on a malformed setting; else fixes environment and variables in order, each under those before it |
| `LanguageTheory.NormalizedIff` | judge/language.go:98-118 | after normalizing, and in no other table, each of the five variables is its field evaluated under the settings and the variables before it, and everything else is as the settings left it |
| `LanguageTheory.PlainField` | judge/language.go:111-116 | a field without dollar signs is its variable |
| `LanguageTheory.SettingValue` | judge/language.go:100-109 | the value of a setting is that of the last one with its key, evaluated under all settings before it |
| `LanguageTheory.UnsetValue` | judge/language.go:100-109 | what no setting mentions stays as it was |
| `LanguageTheory.EnvironmentAgrees` | judge/language.go:100-109 | the environment has the judge's variables and one value per setting, the value that commands see |
| `Language.LanguageConf.EvalCompileCmd` | judge/language.go:120-139 | fails exactly on an unknown option; else the command's words under the joined options |
| `Commands.WordAlone` | judge/language.go:28-33 | a text without spaces is its only word |
| `Commands.WordsConcat` | judge/language.go:28-33 | the words of two texts around a space are those of the first and then those of the second |
| `Commands.WordsAreUnique` | judge/language.go:28-33 | splitting that obeys these two laws and yields nothing for the empty text is the one modelled |
| `Commands.JoinedWords` | judge/language.go:136-138 | the words of the joined options are those of the options in order |
| `Commands.JoinConcat` | judge/language.go:136-138 | joining puts one separator between two lists |
| `Commands.UsualCommand` | judge/language.go:112-138 | for every configuration with the shipped form of compile command and every choice of options: after both stages the words are those of the compiler, the flags, the chosen options, the source file, -o and the artifact |
| `Commands.ClassNameIsReplaced` | judge/language.go:17 | a name with an underscore, followed by a dot, is replaced as a whole |
| `Templates.WordChars` | judge/language.go:17 | the word characters, listed |
| `Language.CompileCmdInTwoStagesIff` | judge/language.go:112-138 | for every configuration whose settings parse: the pre-evaluated command gives what one evaluation gives, for all options, exactly if both have the same shape around Args |
| `Language.CompileCmdInTwoStages` | judge/language.go:112-138 | this is so for a command without stray dollar signs, with separated names and clean values, in an environment that defines neither Args nor CompileCmd nor ExecuteCmd |
| `Language.StrayDollarTakesOptions` | judge/language.go:112-138 | where a variable has the value Args, a stray dollar sign before it makes the options take the place of the text |
| `Language.OptionsReplaceText` | judge/language.go:112-138 | the configuration X=Args with the command $$X |

## Left out

- Judging.JudgeOnDAG: the closure's effects are applied after the traversal, in the order of its calls, rather than during it; its answer depends on the verdicts alone, and each case has one verdict, also where a repeated subtask is judged again.
- Scoring.JudgeSubtask: percentage scores, which the program computes in floating point, are a parameter; memory figures, timestamps, return values and truncated output are not modelled.
- SubtaskGraph.NewSubtaskGraph: adjacency lists are values, so that they share memory with the problem's dependency lists is not captured.
- ResourceManager.Manager.PrepareThenLock: entries are values in a map, and the state of the pool enters as the end of one of its runs; the pool's steps do not interleave with other calls of the file store.
- Storage.FileStore.EvictProblem: entries of a problem directory that are not regular files do not occur.
- Compare.CompareLines2: read errors come at the end of an input only.
- Language.LanguageConf.Normalize: environment strings come parsed; `parseEnv` and its patterns are not modelled.
- Language.LanguageConf.EvalCompileCmd: the option list comes decoded; JSON is not modelled.
- Storage.FileStore.Remove: an id that names a directory (empty or dots) is taken to name no file; that deleting it would remove an empty temporary directory is not modelled.
- FileStore: `List`, `New`, `GetOsFile` and space figures; path cleaning only below an absolute root.
- ResourceManager.Manager.Unlock: the unlock function looks its entry up (`resource/manager.go:287`) before it takes the lock; the model does both in one step, so the data race with a concurrent update of the map is not captured.
- Upload, FetchPool: retries are steps of the relation, their delays are not modelled.
- `compareLines` and `getMd5`, which `compareLines2` replaces, `compareAll` and `compareFloats`.
- Compilation, execution in the sandbox, the network clients, authentication, metrics, configuration files and logging.
