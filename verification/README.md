# Models of zemble's duplication engine, daemon, chunker and caches

The modules model parts of zemble, a code index with a background daemon, and prove what its functions promise each
other and their callers. Each module follows one source file or one class of it; classes and loops of the source are
classes and loops here, each proved against a specification about which the lemmas then speak.

- **Duplication engine** (`Lists`, `Sorting`, `EditDistance`, `UnionFind`, `DedupModel`, `LogicClones`, `LogicGroups`,
  `FocusedLogic`, `FocusedClasses`, `Ranking`, `FocusRun`, `CopiesReported`, `LogicReported`, `CloneReport`,
  `Baseline`). `CloneReport` says of units, hashes, similarities and single edits alone what a run reports: every copy
  spread over enough files is shown, and nothing else is. `FocusRun.FocusedCloneRun` is the other main result: a run
  focused on some files returns exactly the classes of the whole run that touch them, with the same order and reasons.
  It rests on the outward walk reaching exactly the connected groups of the focus bodies, on ranking commuting with
  the focus, and on the literal universe being complete.
- **Daemon** (`Coalescing`, `RebuildModel`, `RebuildAnswers`, `RebuildLosses`, `RebuildResults`, `RebuildProgress`,
  `RebuildDaemon`, `TurnLock`, `GraphJobs`, `IndexCache`, `MemoryAdmission`, `ReadAdmission`). Each is a step system;
  a step is what one coroutine does between two awaits, and cancellation is a step of its own. The results hold for
  every sequence of steps: what every step keeps, what callers are told and why, and that nobody gets stuck, in that
  from every state the tasks' own steps lead on. `View()` of each class is its state in the step system, and each of
  its methods refines one step; the table names those methods that do more than assign.
- **Chunker** (`Chunking`, `TreeChunking`, `TreeChunkNodes`): the greedy merge is optimal, tree splitting loses and
  duplicates nothing, and every chunk is made of whole nodes within the limit but for those that may not be split.
- **Templates, stored indexes, lanes** (`TemplateScan`, `TemplateBlocks`, `StoredVariants`, `GitRoots`, `LaneCompare`).

## What is taken as given

Hashes are only compared. Similarities are real numbers, and a body's neighbour row and full similarity row are given,
the same in both runs; where a focused run is compared with a whole one, they agree within `SIMILARITY_SLACK`. Clocks are
inputs of the steps that read them. Parse trees, regular expression matches, the lines of a text, stored metadata, what
git says, what the file system holds and how much private memory is in use are inputs. A priority queue pops least first,
and asyncio's semaphore hands a released permit to its first waiter.

## Where the code does not do what its text says (paths below `src/zemble`)

- `daemon/server.py:657-661` says joining never loses a named edit. `RebuildLosses.AnsweredEditsAreKept` says of every
  step that answers a caller whether all it named is kept, `RebuildLosses.NotedEditStaysSafe` of every step whether it
  can lose an edit the watcher noted. Two steps besides an eviction can: a job that has not begun finds the tree still
  changing and hands back only its own paths (`RebuildLosses.WatcherCanLoseAnEdit`), and a full rescan is shared with a
  pass that began before the edit (`RebuildLosses.SharedRescanCanLoseAnEdit`).
- `daemon/server.py:673-675` shares a full rescan with a pass that already rescans everything. Its index part may be
  over, or there may be none, since a graph-only follow-up marks its scope the same way
  (`RebuildAnswers.FullRescanCanShareAGraphOnlyPass`): `RebuildAnswers.FullRescanIsAnswered` says exactly when the caller
  gets a full rescan.
- `daemon/server.py:446-448` protects the base an in-flight query reads through. The cascade of an eviction can still
  reach the query's key through a base's own base, and an overlay being rebuilt through its idle base:
  `MemoryAdmission.QueriesSurviveAdmission` says exactly when queries are safe from the whole loop.
- `hwk.py:166-191` keeps offsets when it blanks style bodies, except that a style brace that is the last character of a
  template is doubled: the length clause of `TemplateScan.BlankStyles` is the exact condition.
- `cache.py:354-375` does not look at the content an index's metadata names, so a wider index that no request can use may
  retire a narrower one that was in use: `StoredVariants.RetiringKeepsAnswers` is the exact condition.
- `daemon/admission.py:39-47` can let more callers queue than `queue_limit`, without bound:
  `ReadAdmission.QueueOverrun` says exactly when, `ReadAdmission.AnyNumberCanQueue` that no bound holds.
- `lane.py:295-308` can call a tracked path the same although the lane has no file there:
  `LaneCompare.MissingFileCanBeSame`; `LaneCompare.SameMeansSame` says it is the only way to be wrong.
- `chunking/core.py:44-71` merges "up to the desired length" counting only the bytes of nodes, so a chunk is longer by
  the gaps between them (`TreeChunkNodes.GapsMakeChunksLong`); `TreeChunkNodes.ChunksAreNodes` is the exact bound.
- `hwk.py:130-133` speaks of the narrowest block. Two blocks of one template can share a line without one holding the
  other (`TemplateBlocks.TwoCanMeet`); `TemplateBlocks.NestedUnlessTheyMeet` says for which statements none do.

## Model

| member | source | states |
|---|---|---|
| FocusRun.FocusedCloneRun | src/zemble/dedup/detect.py:1036-1069 | a focused exact/renamed/logic run returns exactly the whole run's classes with a member in a focus file, in the same order with the same reasons, given similarities symmetric within the slack |
| CloneReport.ExactCopiesAreReported | src/zemble/dedup/detect.py:810-828 | two units of one exact hash, in enough files: a run asked for exact copies reports a class with, for every unit of that hash, a member in its file over all its lines |
| CloneReport.RenamedCopiesAreReported | src/zemble/dedup/detect.py:810-828 | two units of one renamed hash that differ in the exact one, in enough files: a run asked for renamed copies reports a class that shows every unit of that renamed hash |
| CloneReport.RelatedBodiesAreReported | src/zemble/dedup/detect.py:810-828 | a group of bodies connected by near and structurally alike pairs, in enough files: a run asked for logic clones reports a class that shows all of them |
| CloneReport.NothingElseIsReported | src/zemble/dedup/detect.py:810-828 | each reported class is of a kind asked for, in enough files, and is exactly the units of one exact or renamed hash, or exactly one connected group of related bodies |
| CloneReport.ReportIsInSections | src/zemble/dedup/detect.py:810-828 | exact copies come before renamed ones, and these before logic clones |
| CopiesReported.ExactClassesAreCopies | src/zemble/dedup/detect.py:340-361 | there is an exact class for a hash if and only if two units have it; it holds all of them, each as often as scanned, and no others, its size is its least member's, its members are in file order, and no two classes share a hash |
| CopiesReported.RenamedClassesAreCopies | src/zemble/dedup/detect.py:364-378 | the same for renamed classes, one for a renamed hash if and only if two units of it differ in their exact hash |
| LogicReported.LogicClassesAreComponents | src/zemble/dedup/detect.py:586-614 | one logic class for every group of two or more bodies connected by pairs one of which lists the other at the threshold and which are structurally alike, in the order of first bodies, with up to six reasons for the first pairs found in it |
| DedupModel.AcceptedAreAlike | src/zemble/dedup/detect.py:556-561 | a pair is accepted if and only if it shares neither hash, two single edits at most lie between the skeletons, and six tenths at least of all called names are called by both; the reason gives the fewest edits |
| Ranking.RankFollowsWeight | src/zemble/dedup/model.py:244-263 | of two ranked classes the first never stands lower, at one standing never weighs less (tokens times members times files, or sites up to three a file times files), and at one weight has the lesser location |
| Ranking.RankDropsTheContained | src/zemble/dedup/detect.py:764-797 | a class is dropped if and only if it spans too few files or a kept class copied as often has, for each member, one over all its lines and tokens; none kept is contained in one before it |
| TreeChunkNodes.ChunksAreNodes | src/zemble/chunking/core.py:44-127 | every chunk spans whole nodes of the tree, which together hold each leaf once in order; a chunk's nodes come to no more than the limit, or are one leaf, one node shorter than 50 bytes or one deeper than 500 levels |
| TreeChunkNodes.LongChunksAreWhole | src/zemble/chunking/core.py:44-127 | in a tree without gaps between nodes, a chunk longer than the limit is one leaf, one short or one too deep node |
| TreeChunkNodes.GapsMakeChunksLong | src/zemble/chunking/core.py:44-71 | bytes between nodes are not counted: two leaves of five bytes make one chunk of sixty under a limit of ten |
| TreeChunkNodes.ChunksCutNoNodeThatFits | src/zemble/chunking/core.py:74-121 | no chunk cuts a leaf, a short or too deep node, or any node below the root no longer than the limit |
| TreeChunking.SiblingsTakeAll | src/zemble/chunking/core.py:108-119 | a run of siblings takes every one that still fits |
| RebuildResults.ToldIsLastResult | src/zemble/daemon/server.py:721-727 | in any run, whoever is told that its rebuild finished is told the result of the last index pass of its job to end before it heard |
| RebuildResults.NoOtherResult | src/zemble/daemon/server.py:721-727 | and no other |
| RebuildResults.PutOffIsRetried | src/zemble/daemon/server.py:636-646 | a watcher whose job's last index pass was put off then holds the whole tree, and hands it over 30 s later and no sooner |
| RebuildResults.WatcherRescansLater | src/zemble/daemon/server.py:636-646 | so it does after running out of memory or another error; after any other answer it waits on with what it holds, or stops when that is nothing |
| RebuildResults.CallWaitsOrIsSkipped | src/zemble/daemon/server.py:654-672 | a caller waits on a job when its index is loaded, else hears at once that its call was skipped |
| RebuildResults.AnswerTellsWhy | src/zemble/daemon/server.py:701-753 | in every reachable state a waiting caller hears: deferred exactly for want of memory, failed exactly for another error, skipped for a tree still changing or an eviction, else finished |
| RebuildProgress.EveryCallerCanBeServed | src/zemble/daemon/server.py:713-726 | from every reachable state the job's own steps lead to where a waiting caller hears that its rebuild finished, with all it named rescanned |
| RebuildProgress.GatheredEditCanBeRescanned | src/zemble/daemon/server.py:617-646 | from every reachable state the watcher's and the job's own steps bring whatever the watcher holds into a pass |
| RebuildProgress.WatcherWaitsForQuiet | src/zemble/daemon/server.py:607-638 | the watcher hands over at a wake-up two seconds or more after the last edit, and never before |
| TurnLock.TurnIsGivenUp | src/zemble/daemon/graph_jobs.py:361-388 | in any run the holder's end, and the resumption of a task granted and cancelled, hand the turn to the next in line or free it; a granted task not cancelled has the turn when it resumes |
| TurnLock.CancelledNeverHolds | src/zemble/daemon/graph_jobs.py:370-379 | in any run a task cancelled before its block began never holds the turn |
| TurnLock.WaiterGetsTheTurn | src/zemble/daemon/graph_jobs.py:361-388 | from any state of any run, tasks taking and giving up their turns bring it to every waiter |
| TurnLock.WaitsAsItCame | src/zemble/daemon/graph_jobs.py:364-366 | a waiting task waits with the priority it came with, and tasks are numbered as they came |
| GraphJobs.CallIsAnswered | src/zemble/daemon/graph_jobs.py:174-203 | in any run a call joins or starts its root's job unless eight other roots have jobs; then the published graph answers it when it asks for no refresh, else it is refused; a root that is neither a directory nor has a graph starts none |
| GraphJobs.AnswersAreTrue | src/zemble/daemon/graph_jobs.py:214-231 | in any run a caller stops waiting exactly when its root's job ends, told that it finished when a pass ended with nothing pending and that it did not when one raised |
| GraphJobs.JobCanEnd | src/zemble/daemon/graph_jobs.py:214-231 | from any state of any run a job's own passes bring it to an end, and everyone waiting hears that it finished |
| GraphJobs.ReadyMeansPublished | src/zemble/daemon/graph_jobs.py:214-356 | in any run a root's graph is ready if and only if a pass of it has ended, or its graph was found on the disk, and it was not removed since |
| IndexCache.LastUsedIsLastUse | src/zemble/index_cache.py:339-427 | in any run a resident key's use time is when it was last asked for |
| IndexCache.AskedIsResident | src/zemble/index_cache.py:339-427 | a key asked for is resident then and the last to go, under the task it had, or a new one when it was not resident or its overlay is stale |
| IndexCache.FailedBuildIsGone | src/zemble/index_cache.py:376-382 | a failed build's task goes with all that overlays its key; where the key has another task nothing changes |
| MemoryAdmission.AdmissionMeans | src/zemble/daemon/server.py:446-462 | only idle, unheld indexes go, while memory reads as over the ceiling; it fails only when every index left is busy, kept, rebuilt, queried, or read through by a query |
| ReadAdmission.GrantsInOrder | src/zemble/daemon/admission.py:39-47 | first come, first served: whoever is newly granted a permit came before all that go on waiting |
| ReadAdmission.QueuedReadCanStart | src/zemble/daemon/admission.py:39-60 | nobody waits for ever: every queued read starts if granted waiters resume and running reads finish |
| ReadAdmission.TimedOutNeverStarts | src/zemble/daemon/admission.py:41-47 | a read whose deadline passed while it queued never starts |
| ReadAdmission.RunsUntilFinished | src/zemble/daemon/admission.py:49-64 | a running read ends only by finishing, whatever else happens |
| Baseline.ChangedShareMost | src/zemble/dedup/baseline.py:137-160 | a changed class and the entry it took over are of one kind and share files, and no resolved entry of the kind shares more |
| Baseline.DiffHolds | src/zemble/dedup/baseline.py:163-196 | remaining classes are exactly those whose key the baseline has; new and changed ones lack it; resolved and taken over entries are those looked for and not found |
| Baseline.DiffAgainstNothing | src/zemble/dedup/baseline.py:163-196 | a run that finds nothing resolves exactly the saved classes of the kinds and lane it looked for |
| StoredVariants.ChosenIsWidest | src/zemble/cache.py:303-339 | the content chosen is the widest that can answer, or, beside an index of just the wanted content, the widest saved at or after it |
| StoredVariants.RetiredMeans | src/zemble/cache.py:354-375 | an index is retired if and only if one of strictly more content, built alike in the current format, was saved no earlier |
| GitRoots.IndexRootDoesNotMatter | src/zemble/chunking/capsule.py:136-164 | a file's capsule path is the same under every index root if and only if the file is in a repository whose directory has a name |
| GitRoots.CapsulePathsTellApart | src/zemble/chunking/capsule.py:136-185 | within one repository of a name, two files have one capsule path only if they are one file |
| FocusRun.WholeCloneRun | src/zemble/dedup/detect.py:810-828 | the whole run is the ranked hash groups and ranked logic groups of all scanned units: the reference the focused run is compared with |
| FocusRun.FocusedLiterals | src/zemble/dedup/detect.py:1050-1055 | exact and renamed focused answers are the touching part of the whole run's, whichever of the two kinds were asked for |
| FocusRun.FocusedLogic | src/zemble/dedup/detect.py:1036-1069 | the ranked focused logic classes are the touching part of the whole run's ranked logic classes |
| FocusRun.UniverseIsComplete | src/zemble/dedup/detect.py:935-958 | any selection of units that keeps every hash repeated in the focus yields the same touching hash classes as all units |
| FocusRun.LiteralUniverse | src/zemble/dedup/detect.py:935-958 | parsing only files that hold a hit keeps exactly the units sharing a repeated focus hash, in scan order |
| FocusRun.RepeatedByPath | src/zemble/dedup/detect.py:970-974 | hashes repeated in the focus can be read off the index rows by path |
| FocusRun.FocusedAnswerTouches | src/zemble/dedup/detect.py:930-932 | the groups that hold a focus body are exactly the logic classes with a member in a focus file |
| FocusedClasses.FocusedLogicClasses | src/zemble/dedup/detect.py:682-727 | the outward walk's classes equal the whole run's classes of groups holding a focus body; reached bodies are exactly the focus bodies' connected groups; the pair count is exactly the accepted pairs inside them |
| FocusedClasses.WalkGivesAnswer | src/zemble/dedup/detect.py:682-727 | grouping the walk's pairs in found order gives the same classes, order and reasons as the whole run restricted to the reached groups |
| FocusedClasses.WalkGivesReasons | src/zemble/dedup/detect.py:714-722 | the walk's sorted pairs carry, inside every reached group, exactly the whole run's reasons in the whole run's order |
| FocusedClasses.ReachedGroups | src/zemble/dedup/detect.py:700-727 | the connected groups of the reached bodies are the whole run's groups that hold a focus body, in the same order |
| FocusedClasses.SortFound | src/zemble/dedup/detect.py:672-679 | sorting pairs by where they are found puts them in the whole run's discovery order |
| FocusedLogic.Walk | src/zemble/dedup/detect.py:700-722 | the walk ends, with every accepted pair that has a reached body found and nothing else |
| FocusedLogic.Step | src/zemble/dedup/detect.py:700-722 | one step finds exactly the accepted pairs incident to the frontier, from forward rows and confirmed reverse rows |
| FocusedLogic.StepFindsIncident | src/zemble/dedup/detect.py:700-716 | forward offers plus confirmed reverse offers are all accepted pairs of the frontier, because similarities agree within the slack and accepted skeletons have near lengths |
| FocusedLogic.WalkStep | src/zemble/dedup/detect.py:717-722 | moving the frontier outward keeps: found pairs are exactly those incident to walked bodies, and every reached body is connected to the focus |
| FocusedLogic.WalkEnds | src/zemble/dedup/detect.py:700-722 | when nothing is left to walk, the reached bodies are exactly the union of the focus bodies' connected components |
| FocusedLogic.FocusedNeighbours.Compute | src/zemble/dedup/detect.py:640-648 | rows of exactly the asked bodies are added |
| FocusedLogic.FocusedNeighbours.Near | src/zemble/dedup/detect.py:654-662 | exactly the other bodies within the slack of the threshold and of near enough skeleton length |
| FocusedLogic.FocusedNeighbours.FoundAt | src/zemble/dedup/detect.py:672-679 | the earliest spot (query, rank) at which a whole run finds the pair, over both bodies' rows |
| LogicClones.NeighbourPairs | src/zemble/dedup/detect.py:438-454 | the scan yields each candidate pair once, in order of its first spot |
| LogicClones.DiscoveryMembers | src/zemble/dedup/detect.py:438-454 | a pair is yielded if and only if some row offers it at the threshold |
| LogicClones.DiscoveryOrdered | src/zemble/dedup/detect.py:438-454 | pairs are yielded strictly in the order of their first spots |
| LogicClones.FoundOrderIsUnique | src/zemble/dedup/detect.py:672-679 | two lists of the same pairs in found order are the same list |
| LogicGroups.LogicClasses | src/zemble/dedup/detect.py:586-614 | the whole run's logic classes are the connected groups of the accepted neighbour pairs, with the first reasons in found order |
| LogicGroups.LogicGroups | src/zemble/dedup/detect.py:564-583 | grouping by union-find root gives the connected groups in order of first member, each with its own reasons |
| LogicGroups.FoldPairs | src/zemble/dedup/detect.py:564-575 | after folding all accepted pairs, two bodies have one root if and only if the pairs connect them |
| LogicGroups.GroupNodes | src/zemble/dedup/detect.py:576-583 | grouping nodes by root gives the connected groups, in order of first member |
| LogicGroups.AcceptPairs | src/zemble/dedup/detect.py:602-611 | exactly the pairs the structural check accepts are kept, with its reasons, in order |
| UnionFind.DisjointSets.Find | src/zemble/dedup/detect.py:388-393 | find with path halving ends on every reachable parent array, returns the representative and changes no element's representative |
| UnionFind.DisjointSets.Union | src/zemble/dedup/detect.py:395-399 | linking two roots merges exactly their two classes, the left representative standing for both |
| UnionFind.HalvingKeepsForest | src/zemble/dedup/detect.py:388-393 | halving one path keeps the parent array a forest with the same representatives |
| UnionFind.LinkingKeepsForest | src/zemble/dedup/detect.py:395-399 | linking a root under another keeps the parent array a forest, without ranks |
| UnionFind.ConnectedWithPair | src/zemble/dedup/detect.py:395-399 | one more pair connects x and y if and only if they were connected or the pair joins their components |
| EditDistance.EditDistance | src/zemble/dedup/structure.py:23-47 | the bounded distance is at most the limit if and only if the true edit distance is, and is then equal to it; it never exceeds the true distance otherwise |
| EditDistance.DistanceIsFewestEdits | src/zemble/dedup/structure.py:23-47 | the table's distance is at most n if and only if some chain of n single insertions, deletions or replacements leads from one sequence to the other |
| EditDistance.RowsNeverDecrease | src/zemble/dedup/structure.py:40-45 | row minima never decrease, so a row past the limit ends the search rightly |
| EditDistance.DistanceAtLeastLengths | src/zemble/dedup/structure.py:28-30 | the distance is at least the difference in length |
| EditDistance.NextRow | src/zemble/dedup/structure.py:34-46 | one inner pass turns a table row into the next one |
| DedupModel.CheckPair | src/zemble/dedup/structure.py:81-98 | the verdict by the true edit distance and the call overlap, though the distance is computed only up to its limit |
| DedupModel.AcceptedPairsHaveNearLengths | src/zemble/dedup/structure.py:81-98 | a pair the check accepts has skeletons within the distance limit in length: filtering by length loses nothing |
| DedupModel.Accepted | src/zemble/dedup/detect.py:556-561 | a pair is accepted exactly when neither hash matches and the structural check holds, with the distance as its reason |
| Ranking.RankCommutesWithFocus | src/zemble/dedup/detect.py:779-797 | ranking the classes that touch some files equals the touching part of ranking all classes |
| Ranking.Rank | src/zemble/dedup/detect.py:779-797 | the incremental ranker with its per-file index computes the pruning by its plain definition |
| Ranking.CoverTouches | src/zemble/dedup/detect.py:764-777 | a class covering one that touches a file touches that file too |
| Ranking.Kept.IsCovered | src/zemble/dedup/detect.py:764-777 | narrowing candidates member by member answers whether some kept class encloses every member |
| Ranking.Kept.Add | src/zemble/dedup/detect.py:742-751 | the kept list and its per-file index grow together |
| Ranking.Kept.EnclosedBy | src/zemble/dedup/detect.py:753-762 | whether a kept class has a member enclosing this one in the same file |
| Sorting.SortFilter | src/zemble/dedup/detect.py:781-782 | a stable sort commutes with any filter |
| Baseline.DiffConserves | src/zemble/dedup/baseline.py:163-196 | report classes split exactly into remaining, new and changed; baseline entries exactly into settled, silently claimed, resolved and changed, as multisets |
| Baseline.ResolvedIsApart | src/zemble/dedup/baseline.py:163-196 | no resolved entry shares its kind and a file with a new class |
| Baseline.ResolvedIsNotHidden | src/zemble/dedup/baseline.py:191-193 | nor with a suppressed re-keyed class that claimed nothing |
| Baseline.SettledMeans | src/zemble/dedup/baseline.py:181-185 | an entry is settled exactly when its key is present or suppressed or the run was not entitled to judge it |
| Baseline.PairingConserves | src/zemble/dedup/baseline.py:137-160 | pairing conserves both sides: each entry is claimed at most once |
| Baseline.PairingLeavesApart | src/zemble/dedup/baseline.py:137-160 | leftovers of the two sides share no file within a kind; each claim shares files and no entry left open shares more |
| Baseline.DiffAgainstItself | src/zemble/dedup/baseline.py:94-111 | a run diffed against the baseline saved from it is all remaining |
| Baseline.FileOfLocation | src/zemble/dedup/baseline.py:40-42 | stripping a member location at its last colon gives back the file, colons in the path included |
| Baseline.EntryKeepsFiles | src/zemble/dedup/baseline.py:94-111 | a saved entry spans exactly the files of its class |
| Baseline.BestEntry | src/zemble/dedup/baseline.py:147-154 | the loop's pick is the first entry of the kind with the greatest overlap, or none when none overlaps |
| Baseline.BestIsMost | src/zemble/dedup/baseline.py:147-154 | the pick shares a file whenever some entry of the kind does, and none shares more |
| Baseline.PairUp | src/zemble/dedup/baseline.py:137-160 | the nested loops compute the pairing |
| Baseline.DiffReport | src/zemble/dedup/baseline.py:163-196 | the diff as computed: suppressed classes claim first, fresh ones pair with what is left |
| Coalescing.MergedGives | src/zemble/daemon/server.py:135-145 | merging change sets loses nothing named by either and adds nothing except by widening to a full rescan past 4096 paths |
| RebuildModel.FinishedMeansConserved | src/zemble/daemon/server.py:654-685 | in every reachable state, a caller told its rebuild finished had every path it named in the scope of a pass begun after its call, and a graph refresh begun after it if it asked for one; for a full rescan unless it was shared |
| RebuildModel.EveryCallIsAccounted | src/zemble/daemon/server.py:654-753 | no caller is forgotten: each is answered or waits on a job that still holds what it asked for |
| RebuildModel.RunKeepsInv | src/zemble/daemon/server.py:607-793 | the invariant behind both, over every interleaving of watcher, callers, job phases, failures and evictions |
| RebuildModel.AskKeepsInv | src/zemble/daemon/server.py:654-685 | joining or starting a job serves the caller and nobody already waiting is served less |
| RebuildModel.AfterPassKeepsInv | src/zemble/daemon/server.py:724-730 | the follow-up after a pass keeps everyone served |
| RebuildDaemon.MergeChanges | src/zemble/daemon/server.py:135-145 | the dictionary update is the merge of the key's held set with the new one |
| RebuildDaemon.Daemon.Note | src/zemble/daemon/server.py:607-615 | noting a change is the model's step for its key; other keys' entries stay |
| RebuildDaemon.Daemon.Rebuild | src/zemble/daemon/server.py:654-681 | the synchronous part of a rebuild call is the model's step |
| RebuildDaemon.Daemon.FollowUp | src/zemble/daemon/server.py:785-793 | after a pass: an index pass over what came meanwhile, else a graph-only pass, else finish |
| RebuildDaemon.Daemon.WatcherReturns | src/zemble/daemon/server.py:642-652 | deferred or failed: a full rescan 30 s later; else wait on or stop |
| RebuildDaemon.Daemon.OnEvict | src/zemble/daemon/server.py:579-601 | an evicted root's watcher and not yet started job go; a running pass stays |
| TurnLock.TurnIsExclusiveAndNeverLost | src/zemble/daemon/graph_jobs.py:361-388 | after any interleaving of arrivals, cancellations, resumptions and ends at most one task has the turn, it is marked held exactly while one does, and nobody waits while it is free |
| TurnLock.GrantsFollowTheLine | src/zemble/daemon/graph_jobs.py:361-388 | a task newly granted the turn was the live waiter of least (priority, arrival), and somebody gave the turn up in that step |
| TurnLock.PassTurnHandsOver | src/zemble/daemon/graph_jobs.py:381-388 | passing the turn grants it to the next in line, skipping cancelled waiters, or frees it when nobody waits; nobody else's standing changes |
| TurnLock.PushKeepsSorted | src/zemble/daemon/graph_jobs.py:366 | pushing a waiter keeps the heap's pop order and its other entries |
| TurnLock.GraphTurns.HandOn | src/zemble/daemon/graph_jobs.py:381-388 | the popping loop is the model's hand-over |
| GraphJobs.EveryChangeSetIsCovered | src/zemble/daemon/graph_jobs.py:174-231 | never more than eight jobs, one per root; every accepted change set is still due from its root's job, or, once that job finished, covered by worker passes begun after the acceptance |
| GraphJobs.StartKeepsInv | src/zemble/daemon/graph_jobs.py:174-203 | starting a job or folding a change set into a running one keeps everyone's coverage |
| GraphJobs.NothingPendingMeansCovered | src/zemble/daemon/graph_jobs.py:222-228 | a job at work with nothing pending has begun passes over all it was asked |
| GraphJobs.GraphJobTable.StartJob | src/zemble/daemon/graph_jobs.py:174-203 | the table's update and answer: joined, answered by the published graph, busy, or no such directory |
| GraphJobs.GraphJobTable.EndPass | src/zemble/daemon/graph_jobs.py:222-231 | publish, then go round with what is pending or end the job |
| IndexCache.SlotsNeverOverrun | src/zemble/index_cache.py:339-372 | whatever is asked, built, replaced, failed and evicted, the indexes that take a slot never exceed the cache's size, if and only if that size is at least one |
| IndexCache.RunKeepsInv | src/zemble/index_cache.py:176-427 | over every interleaving: keys distinct and ordered by last use, tasks and use times for the same keys, overlays only of resident keys |
| IndexCache.VictimsAreLeastRecentlyUsed | src/zemble/index_cache.py:366-368 | slot victims were used no later than any index of its own that stays |
| IndexCache.EvictingTheOldest | src/zemble/index_cache.py:366-368 | evicting the oldest own indexes leaves the newer ones in their order |
| IndexCache.EvictionLeavesNoOrphan | src/zemble/index_cache.py:176-188 | no overlay of an evicted key stays registered |
| IndexCache.GoneIsLeast | src/zemble/index_cache.py:176-192 | what an eviction takes is the least set around the key that no outside key overlays |
| IndexCache.ReplaceResurrectsNothing | src/zemble/index_cache.py:215-227 | replacing gives a resident key a new task and changes no key's presence, place, use or base |
| IndexCache.GetOverlayKeepsInv | src/zemble/index_cache.py:392-427 | registering or re-planning an overlay takes no slot |
| IndexCache.ResidentIndexes.Evict | src/zemble/index_cache.py:176-188 | the recursive eviction ends and removes exactly the cascade |
| IndexCache.ResidentIndexes.EvictOldestFull | src/zemble/index_cache.py:366-368 | the victim loop is the model's making of room |
| IndexCache.ResidentIndexes.Exactly | src/zemble/index_cache.py:362-372 | serve a resident index as most recently used, or make room and start a build |
| IndexCache.ResidentIndexes.OverlayOn | src/zemble/index_cache.py:401-420 | serve or plan an overlay on its base |
| IndexCache.ResidentIndexes.SwapIn | src/zemble/index_cache.py:215-227 | a rebuilt index replaces a resident one in place |
| IndexCache.ResidentIndexes.BuildFailed | src/zemble/index_cache.py:377-382 | a failed build is evicted unless replaced meanwhile |
| MemoryAdmission.EvictionsSpare | src/zemble/daemon/server.py:446-461 | evicting keys outside a set leaves the set alone if and only if the set holds its own bases |
| MemoryAdmission.AdmitStopsInTime | src/zemble/daemon/server.py:440-462 | admission evicts only while memory reads over the ceiling, succeeds exactly when it reads under it, and gives up only with nothing evictable left |
| MemoryAdmission.AdmitWork | src/zemble/daemon/server.py:440-462 | the loop ends and does what the admission function says |
| ReadAdmission.RunKeepsInv | src/zemble/daemon/admission.py:44-70 | the invariant, and that the queue count is the number of tasks in the waiting room |
| ReadAdmission.WakeAllKeeps | src/zemble/daemon/admission.py:51 | after a waiter resumes nobody waits beside a free permit |
| ReadAdmission.AnyNumberCanQueue | src/zemble/daemon/admission.py:39-46 | nothing bounds that overrun |
| ReadAdmission.Admission.Queue | src/zemble/daemon/admission.py:39-51 | refuse, take a free permit, or queue |
| ReadAdmission.Admission.AcquireEnds | src/zemble/daemon/admission.py:48-64 | a granted waiter starts its read, or gives the permit back when its deadline had passed |
| ReadAdmission.Admission.AcquireExpires | src/zemble/daemon/admission.py:52-55 | an expired waiter leaves the waiting room |
| ReadAdmission.Admission.Release | src/zemble/daemon/admission.py:56-61 | work that ends hands its permit on |
| ReadAdmission.Admission.WakeWaiters | src/zemble/daemon/admission.py:51 | the wake-up loop |
| Chunking.GreedyIsFewest | src/zemble/chunking/core.py:44-71 | no contiguous in-order grouping whose groups sum to at most the limit or are single chunks has fewer groups than the greedy merge |
| Chunking.GreedyIsGrouping | src/zemble/chunking/core.py:44-71 | the greedy merge is such a grouping of all its input |
| Chunking.MergeAdjacent | src/zemble/chunking/core.py:44-71 | the loop computes the spans of the greedy groups |
| Chunking.MergedIsLaid | src/zemble/chunking/core.py:44-71 | merging keeps chunks ordered, disjoint and in bounds, and every input chunk lies whole in one merged chunk |
| Chunking.LineChunksGiveText | src/zemble/chunking/core.py:130-140 | the slices of a text at its line chunks, concatenated, are the text |
| Chunking.ChunkLines | src/zemble/chunking/core.py:130-140 | nothing for blank text, else the merged chunks of its lines |
| Chunking.TailNeedsNoMore | src/zemble/chunking/core.py:44-71 | a shorter tail never needs more groups |
| TreeChunking.EveryLeafByteInOneChunk | src/zemble/chunking/core.py:74-127 | for any tree whose children are ordered, disjoint and inside their parent, the chunks are ordered, disjoint and inside the root, and each byte of each leaf lies in exactly one of them |
| TreeChunking.SplitIsLaid | src/zemble/chunking/core.py:74-121 | splitting a node gives ordered disjoint chunks inside it, at least one |
| TreeChunking.SplitNode | src/zemble/chunking/core.py:74-121 | the recursion with its loops computes the split, and ends on every tree |
| TreeChunking.FillGroup | src/zemble/chunking/core.py:104-116 | a group takes along exactly the siblings that fit greedily |
| TreeChunking.ChunkTree | src/zemble/chunking/core.py:124-127 | split, then merge |
| TemplateScan.RegionsAreStatements | src/zemble/hwk.py:213-237 | a region is listed if and only if it begins right after an opening delimiter, holds no delimiter, and ends at the next one or at the end |
| TemplateScan.RegionsAreApart | src/zemble/hwk.py:213-237 | regions are ordered and disjoint |
| TemplateScan.StatementRegions | src/zemble/hwk.py:213-237 | the searching loop finds exactly the statements' regions |
| TemplateScan.BlankStyles | src/zemble/hwk.py:166-191 | exactly what lies inside the style bodies is blanked, from each brace to the one that balances it or the last character; offsets and line breaks stay, and the length, except exactly when a style brace ends the text, which is doubled |
| TemplateScan.BodyEnd | src/zemble/hwk.py:178-188 | the brace that balances the head, or the last character |
| TemplateScan.BlankComments | src/zemble/hwk.py:161-163 | exactly the comments are blanked, and length and line breaks stay |
| TemplateScan.LineOfIsOriginal | src/zemble/hwk.py:252-261 | the line looked up in the blanked text is one plus the line breaks before that offset in the original |
| TemplateScan.LineStarts | src/zemble/hwk.py:204-210 | the offsets after each line break, and zero |
| TemplateScan.PrepareScan | src/zemble/hwk.py:252-261 | the scanner's text and its line lookup, for any offset of the original; the text is the template with its comments and then its style bodies blanked |
| TemplateBlocks.Scanner.Run | src/zemble/hwk.py:263-276 | the scanner's stack and list, statement by statement and with the blocks still open closed at the end, give the regions of its statements |
| TemplateBlocks.RegionsAreMatched | src/zemble/hwk.py:328-341 | the regions found with a stack are exactly those from each opening statement to the one that closes it by counting the statements between, or to the end of the template |
| TemplateBlocks.OneRegionEach | src/zemble/hwk.py:328-341 | each opening statement with a name gives one region |
| TemplateBlocks.RegionsNeverCross | src/zemble/hwk.py:263-276 | whatever a template holds, its regions are pairwise nested, apart, or meeting in one line only, within its lines, and sorted by start |
| TemplateBlocks.ClosingIsLaminar | src/zemble/hwk.py:337-341 | the step of that invariant: closing the innermost open block keeps it |
| TemplateBlocks.BlockAt | src/zemble/hwk.py:130-133 | a narrowest block containing the line, if any contains it |
| StoredVariants.SomeCoverSurvives | src/zemble/cache.py:354-375 | every retired index is strictly contained in a surviving one of the same build saved at or after it |
| StoredVariants.ChosenContentIsStored | src/zemble/cache.py:305-339 | when something stored can answer, the chosen content is that of something stored that can |
| StoredVariants.CoveredVariants | src/zemble/cache.py:354-375 | the two loops list exactly the covered indexes, in order |
| StoredVariants.MayReuse | src/zemble/cache.py:645-659 | the check accepts if and only if manifest entries tile the chunks in order, each chunk is under its file's path and the lexical order lists exactly their identities |
| GitRoots.RepoRelativePaths.GitRoot | src/zemble/chunking/capsule.py:166-185 | the memoised walk returns the nearest ancestor holding a repository, remembers only such answers, and forgets none |
| GitRoots.RepoRelativePaths.PathFor | src/zemble/chunking/capsule.py:150-164 | the capsule path, by the walk without a memo |
| GitRoots.NearestIsAbove | src/zemble/chunking/capsule.py:166-185 | the nearest repository is a prefix of the directory with no repository below it, or there is none at all |
| GitRoots.ProbeDecides | src/zemble/lane.py:310-323 | one probe name decides for every file of a directory whether two trees give it one capsule path |
| LaneCompare.Holds | src/zemble/lane.py:205-214 | a path is the lane's exactly when no checkout holds it or the innermost one is held |
| LaneCompare.LaneComparer.SameCapsuleDir | src/zemble/lane.py:310-323 | one remembered probe per directory |
| LaneCompare.LaneComparer.SameFile | src/zemble/lane.py:295-308 | git's answer where there is one, else the bytes |
| LaneCompare.LaneComparer.Partition | src/zemble/lane.py:325-331 | the loop splits paths by that judgement, in order |
| ReadAdmission.Admission.DeadlinePasses | src/zemble/daemon/admission.py:49-55 | a deadline ends a wait, dooms a granted waiter, and does nothing to a running read |
| Coalescing.MergedIsBounded | src/zemble/daemon/server.py:135-145 | a held change set never exceeds 4096 paths, and is widened only when every set holding all that was named would |
| IndexCache.RoomForOne | src/zemble/index_cache.py:366-368 | room is made for exactly one more index, and nothing goes while there is room |
| Baseline.BestIsFirst | src/zemble/dedup/baseline.py:147-154 | of entries sharing equally many files the first is picked |
| FocusedLogic.Gather | src/zemble/dedup/detect.py:705-712 | for each frontier body, judged forward offers and the near bodies left to confirm: sound, and complete for the frontier |
| FocusedLogic.Confirm | src/zemble/dedup/detect.py:713-716 | a pending pair is kept exactly when the other body's own row offers it |
| FocusedLogic.Record | src/zemble/dedup/detect.py:705-716 | each found pair gets the structural check's own reason |
| FocusedLogic.Advance | src/zemble/dedup/detect.py:700-722 | one turn of the walk keeps its invariant and reaches more bodies or ends |
| FocusedLogic.FocusedNeighbours.SpotsIn | src/zemble/dedup/detect.py:672-679 | exactly the spots at which one holder's row yields the other body |
| EditDistance.RowPastLimit | src/zemble/dedup/structure.py:43-45 | once a row's least cell passes the limit, so does the distance |
| DedupModel.CloneOf | src/zemble/dedup/detect.py:348-356 | a class has the members it was given, ordered by location |
| Lists.GroupBy | src/zemble/dedup/detect.py:340-345 | grouping by a key in a dictionary gives the equivalence classes of the key in order of first appearance |
| Lists.BucketsAreClasses | src/zemble/dedup/detect.py:340-345 | each group is headed by its first member and holds exactly the items alike to it, in order |
| TemplateScan.EndOfStatement | src/zemble/hwk.py:226-237 | a region ends at the first delimiter of either kind, and the search resumes there or past a closing one |
| TreeChunking.NextRun | src/zemble/chunking/core.py:85-119 | one turn of the loop: an oversized child split on its own, or a run of siblings |
| Chunking.LineGroups | src/zemble/chunking/core.py:134-138 | one chunk per line, end to end |
| RebuildAnswers.FullRescanIsAnswered | src/zemble/daemon/server.py:654-685 | for every reachable state: whatever happens after a call for a full rescan, a caller told it finished had an index pass over everything end since the call, if and only if at the call no pass rescanned everything already, or its index part still ran, or a full pass was already to follow |
| RebuildAnswers.RunPromises | src/zemble/daemon/server.py:654-793 | over every run, a promised full rescan stays due until it ended or the caller hears something other than finished |
| RebuildAnswers.FullRescanCanShareAGraphOnlyPass | src/zemble/daemon/server.py:757-765 | a reachable run in which a shared full rescan is answered by a pass that refreshes only the graph |
| RebuildLosses.AnsweredEditsAreKept | src/zemble/daemon/server.py:654-753 | for every reachable state, step and caller the step answers: all the caller named is in a pass begun since its call or with the watcher, if and only if the step is not a first-step skip that hands back less, a raise with something joined that is nowhere else, or an eviction |
| RebuildLosses.NotedEditStaysSafe | src/zemble/daemon/server.py:607-753 | for every reachable state and step: an edit the watcher noted stays rescanned, held, with the job or covered by a full rescan to come, if and only if the step is none of three - a first-step skip handing back other paths, a full rescan shared with a pass already begun, an eviction - or it was rescanned before |
| RebuildLosses.NotedEditsAreSafe | src/zemble/daemon/server.py:607-753 | over any run without such a step a noted edit stays safe |
| RebuildLosses.NotedIsSafe | src/zemble/daemon/server.py:607-615 | a noted edit of a resident root is safe at once |
| RebuildLosses.WatcherCanLoseAnEdit | src/zemble/daemon/server.py:714-743 | a reachable run in which a first-step skip loses an edit the watcher noted |
| RebuildLosses.SharedRescanCanLoseAnEdit | src/zemble/daemon/server.py:673-677 | a reachable run in which the watcher shares a full rescan begun before the edit, hears it finished, and the edit was never rescanned |
| MemoryAdmission.QueriesSurviveAdmission | src/zemble/daemon/server.py:440-462 | whichever indexes are idle and however memory reads, all that queries hold and read through stays as it is, if and only if everything resident their keys read through, at any depth, is held by work |
| MemoryAdmission.AdmitSparesWork | src/zemble/daemon/server.py:440-462 | for any set that holds its own bases and that work holds: admission evicts or replaces nothing of it, whatever else is rebuilt or kept |
| MemoryAdmission.QueriesAreOutOfReach | src/zemble/daemon/server.py:446-461 | no eviction of anything but what queries hold reaches them if and only if no query reads through an overlay whose own base is idle |
| MemoryAdmission.ChainCascades | src/zemble/daemon/server.py:446-461 | evicting anything a key reads through, at any depth, takes the key along |
| MemoryAdmission.DeepOverlayCanBeEvicted | src/zemble/daemon/server.py:446-461 | a reachable cache of an overlay on an overlay in which admission evicts a query's own index |
| MemoryAdmission.RebuildingOverlayCanBeEvicted | src/zemble/daemon/server.py:446-461 | a reachable cache in which admission evicts an overlay being rebuilt and kept, through its idle base |
| MemoryAdmission.VictimsAreOldest | src/zemble/daemon/server.py:449-460 | every idle index left was used no earlier than any victim |
| ReadAdmission.PermitsAreConserved | src/zemble/daemon/admission.py:44-70 | over every interleaving, free plus granted plus running permits equal the slots, so running reads never exceed them; a deadline passing while a read runs frees nothing; a permit lies free beside a waiter only while a granted one, who will wake it, has not resumed |
| ReadAdmission.QueueOverrun | src/zemble/daemon/admission.py:39-46 | over every interleaving: a newcomer queues beyond the limit exactly while a waiter has been granted a permit and has not started |
| StoredVariants.RetiringKeepsAnswers | src/zemble/cache.py:401-413 | for any stored indexes: every request answered before retiring is answered after it, if and only if each usable index removed leaves a usable one of its build holding all its content |
| StoredVariants.UsableCoversAreHeirs | src/zemble/cache.py:354-375 | so it is whenever the surviving covers of usable indexes are usable |
| StoredVariants.ChosenContentSurvives | src/zemble/cache.py:305-339 | and then the content chosen after retiring is that of a surviving index that answers |
| StoredVariants.RetiringCanUncover | src/zemble/cache.py:354-375 | two stored indexes for which retiring uncovers a request |
| LaneCompare.GitsWord | src/zemble/lane.py:244-264 | git is asked of a path exactly when its checkout tracks it, and the union of the two comparisons with the base's commit leaves it out exactly when both trees have it as committed and, if it is committed, the base still tracks it |
| LaneCompare.SameMeansSame | src/zemble/lane.py:295-308 | a path called the same has the base's capsule path, and its bytes exactly when the lane has a file there, derived from the two comparisons; an existing file is called the same exactly when bytes and capsule path are and, where git was asked, both trees have it as the base's commit does |
| LaneCompare.MissingFileCanBeSame | src/zemble/lane.py:301-304 | a tracked path with no file in the lane can be called the same as an untracked file of the base |
| LaneCompare.InnermostIsDeepest | src/zemble/lane.py:278-293 | with no checkout before one inside it, the first match is the innermost: every other one holding the path holds it too |
| LaneCompare.PartitionLosesNothing | src/zemble/lane.py:325-331 | every path lands on one side, once |
| LaneCompare.PartitionJudges | src/zemble/lane.py:325-331 | and on the side its judgement says |
| TemplateBlocks.NestedUnlessTheyMeet | src/zemble/hwk.py:328-341 | for every list of opening and closing statements in line order: the regions are nested or apart by lines if and only if no block of several lines is closed on a line where another of several lines opens |
| TemplateBlocks.NarrowestIsInsideAll | src/zemble/hwk.py:130-133 | then the narrowest block of a line lies inside every block of the line |
| TemplateBlocks.NarrowestIsInnermost | src/zemble/hwk.py:130-133 | in any case it does, but for blocks it only meets in that line |
| TemplateBlocks.TwoCanMeet | src/zemble/hwk.py:328-341 | a template in which one block closes where another opens: its two regions are neither nested nor apart |
| TreeChunking.FirstRun | src/zemble/chunking/core.py:98-119 | a child that is not oversized makes one chunk with the siblings that fit beside it |

## Left out

- Embeddings, cosine products and their rounding, the block sizes in which rows are computed, and the memo of judged
  pairs inside one focused step; the text of reasons and notes beyond the pair and its distance.
- Extraction of units from files, the index rows behind them, hex digests, worker pools and timings of a clone run.
- The kinds a clone run does not compare pairwise (holed, idiom, reimplements, vocabulary), and report rendering.
- FocusRun.FocusedCloneRun: covers the exact, renamed and logic kinds; the other kinds of a focused run are not modelled.
- FocusedClasses.FocusedLogicClasses: assumes similarities symmetric within the slack, as the source's own comment does.
- Baseline.BestEntry: the file overlap of entries is computed from their members; loading and saving documents is left out.
- What one rebuild pass does inside (`_rebuild_once`, `_replan_overlay`, `_refresh_graph`): its result is an input, carried
  to the callers.
- The watcher's wait for a first load that is still running, the `pending` status set, `last_error` and `last_rebuild`,
  the revalidation cooldown, and `bring_current`'s retry loop.
- RebuildModel.FinishedMeansConserved: speaks of passes begun, not of passes that succeeded; a deferred pass may be
  followed by another whose result is the one told.
- TurnLock.GraphTurns.TakeOrQueue: the waiting room is one sequence kept in pop order instead of a binary heap.
- Waiting for a lane's base job and announced refreshes (`_base_settled`, `refresh_announced`), process limits and the
  worker's subprocess; a job cancelled before its first step at shutdown.
- IndexCache.ResidentIndexes.Exactly: choosing the stored content, the staleness check against the disk and the build
  itself are inputs; building tasks are numbers.
- MemoryAdmission.AdmitWork: private memory is a given reading after each eviction.
- ReadAdmission.Admission.Queue: the semaphore's own fields are part of the class, after asyncio's documented behaviour.
- Chunking.ChunkLines: splitting a text into lines is given; `chunk_with_tree`'s conversion from byte to character
  offsets is not modelled.
- Calls, references, tags and interpolations collected from a template.
- LaneCompare.GitsWord: takes for given what one comparison of a working tree with a commit lists, and that neither tree
  nor commit changes meanwhile; running git, file modes and index flags are not modelled.
- Discovering lanes and checkouts, removing index files, seeding one index from another.
- The read cache, the client, home verdicts, orphan classification and score scaling: sound but easier.
- Liveness: a lane's graph job may wait behind base jobs for ever, by design.
