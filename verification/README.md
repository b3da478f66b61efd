# Verification of the scanner's walks, selection and manifests

A Dafny model of the parts of `weavatrix-scan` whose correctness spans many steps: the parallel traversal
schedulers, the iterative walker, ignore matching, the incremental update, and the streaming kernels behind file
contents and revisions. `dafny verify dfyconfig.toml` checks everything.

The model keeps the form of the code. Schedulers, walkers, hashers and matchers with state are classes whose
methods update the same fields; loops over buffers, memo tables and manifests are methods with loops; decisions on
values are functions. Every such method is proved against a specification written independently of it and of the
decisions it makes on the way (a recursive walk, a split of a value into pieces, a linear scan, the padded message of
FIPS 180-4), and what the scanner promises is proved about that specification. Completion order, cancellation, refused submissions, reader behaviour
and visitor replies are chosen arbitrarily inside the methods, so each contract holds for every schedule. A
parameter says whether the environment may interfere at all (`env`, `disturbed`, `refused`, `calm`): without
interference the contracts determine the result.

One `char` of a text stands for one byte of its UTF-8 form.

## What is modelled where

| files | subject |
|---|---|
| `PullScheduler`, `OrderedPull`, `StatefulWalk`, `FileTree` | ids, bounded outstanding reads, parked results and the frame stack of the ordered pull; the same protocol with state handed from each directory to its children; the serial iterator |
| `DynamicWalk`, `DynamicVisit` | the shared queue of the dynamic scheduler as steps of any number of workers, and the visit of one directory |
| `LaneWalk` | shallow read, frontier expansion, round-robin lanes and reassembly |
| `WalkGraph`, `WalkReference`, `Walker`, `LinkLoops` | the explicit-stack walker over an arbitrary directory graph, with link cycles, what the options promise of such a walk, and what the ordered walk makes of link cycles |
| `Glob`, `Braces`, `BraceCount`, `PathPattern`, `Matcher`, `Prefilters` | the memoised glob, brace expansion, the one-pass expansion limit, the fast forms and prefilters |
| `IgnoreRules`, `IgnoreLayers`, `RepositoryRules` | the byte-bucket index, layered lookup on demand and prepared, the matcher that caches the layers of every directory |
| `ScanSelection`, `SourceEvidence`, `WatchEvents`, `WatchUpdate` | what a full scan selects, when rule evidence has changed, event plans, and the incremental update |
| `Sha256`, `Sha256Standard`, `Report`, `Revision`, `Delta`, `Paths`, `ContentVisit`, `Ordering` | hashing, the revision encoding, manifest deltas, prefix collapse, the content event protocol, sorting |

## What the proofs found

Each of these is stated by a lemma or an exact condition; the model keeps the code as it is.

- **Link loops in ordered and stateful reads.** `read_directory` walks one directory with the depth capped at
  depth + 1, and the depth limit is decided before the loop, so a followed link into an active directory loses its
  `SymlinkLoop` skip unless a file-system boundary or the whole walk's own limit applies anyway
  (`OrderedPull.LoopMasked`). Without a depth limit such a walk goes round the loop without end, as long as the file
  system resolves the path (`LinkLoops.LoopEndless`). README.md:492 of the repository promises typed loop skips, and
  README.md:1503 lists loop handling beside the ordered parallel walk.
- **Cancellation before the first refill** leaves the ordered scheduler waiting for a result nobody was asked for, and
  nothing else does (`PullScheduler.OrderedScheduler.Run`, `OrderedPull.CancelledRunBlocks`).
- **Refused submissions.** A refusal reaches the consumer as a last item if and only if it did not happen inside
  `prepare_frame` (`PullScheduler.Policy.RefusalsReported`). An executor that refuses the first subdirectory ends
  the stream behind the root without any error, for every tree and limit (`OrderedPull.OrderedParallel`,
  `OrderedPull.RefusalUnreported`).
- **Visits of a single file.** A regular-file root that the visitor accepts is queued as a directory, so the visit
  reports a read error, and fails where errors abort (`DynamicVisit.FileRootReadAsDirectory`).
- **`Abort` in the lane walk.** Errors met while the frontier is expanded are returned inside `Ok` when the
  expansion leaves no directory for the lanes (`LaneWalk.Walk`, `LaneWalk.AbortIsMissed`), although README.md:1028
  of the repository describes the policy as continuing with partial evidence or aborting.
- **Prefilters and braces.** The tail prefilter reads the pattern as written. If the pattern ends in a slash and a
  literal, and only some expansion puts `**` in front of that slash, the prefilter rejects values that the glob
  accepts: `{a,**}/b` against `b`. This is the only way for ordinary patterns (`Prefilters.PrefiltersExact`).
- **`p*` and `*s` rules** are plain prefix and suffix tests: they agree with the glob unless the rest of the value
  holds a slash (`Matcher.FastForms`).
- **Classes that start with `]`** are one class for validation while the matcher ends them at once: validation accepts
  patterns of 3n + 3 bytes that the matcher expands to 2^n leaves (`PathPattern.LeadingBracketDiffers`), although
  the limit is 256.
- **Escapes at the very end of a pattern, and inside classes,** are read differently by the glob and the prefilters
  (`Matcher.MisalignedRejects`). Behind a pattern without groups, an escape at the end makes the prefilters unsound
  unless the pattern matches nothing or its required end consists of escapes (`Prefilters.DanglingExact`).
- **On-demand and prepared decisions** ignore the same entries wherever the walk gets, except exactly hidden entries
  without a word of their own below an explicitly included directory: they are kept on demand and skipped by the
  walk (`IgnoreLayers.SelectionAgreement`, `IgnoreLayers.SelectionDiffers`).
- **The empty prefix** covers nothing but itself for `is_same_or_descendant`, but every path with a leading slash for
  `path_covered_by_prefixes` (`Paths.AboveIsSameOrDescendant`).

## Model

| member | source | states |
|---|---|---|
| PullScheduler.OrderedScheduler.Refill | src/parallel/ordered_pull/scheduler.rs:7-39 | fills free slots from the front of the queue; no live directory is lost or invented, and unless cancelled no slot stays free while a task is queued; a cancelled scheduler submits nothing; a refusal is recorded with its caller, and happens at once if the front task is not accepted |
| PullScheduler.OrderedScheduler.Submit | src/parallel/ordered_pull/scheduler.rs:7-39 | one submission moves the front task under way and loses no live directory, or is refused, exactly if the executor does not accept it, and cancels |
| PullScheduler.OrderedScheduler.Receive | src/parallel/ordered_pull/scheduler.rs:41-83 | any one of the reads under way completes, only when there is one; it leaves the live set and, unless cancelled, its batch answers its own task |
| PullScheduler.OrderedScheduler.WaitFor | src/parallel/ordered_pull/scheduler.rs:41-83 | returns exactly the batch of the wanted id whatever completes first; it blocks if and only if nothing is under way although nothing failed; it fails if and only if a submission was refused; every stop leaves no read under way |
| PullScheduler.OrderedScheduler.PrepareFrame | src/parallel/ordered_pull/scheduler.rs:85-126 | the frame's items are the batch's, each child has a fresh id for its own task, and every child is live afterwards; a refusal here is recorded as one inside this call, and there is one if the first child is not accepted |
| PullScheduler.OrderedScheduler.CancelAndDrain | src/parallel/ordered_pull/scheduler.rs:128-138 | cancels, forgets the queue and waits until nothing is under way |
| PullScheduler.OrderedScheduler.SubmitKeeps | src/parallel/ordered_pull/scheduler.rs:7-39 | submitting keeps the id protocol consistent, raises the outstanding count by one and keeps the live set |
| PullScheduler.OrderedScheduler.ReceiveKeeps | src/parallel/ordered_pull/scheduler.rs:41-83 | a completion keeps the protocol consistent and takes exactly its own id out of the live set |
| PullScheduler.OrderedScheduler.ParkKeeps | src/parallel/ordered_pull/scheduler.rs:41-83 | parking an early completion keeps the protocol consistent and its id live |
| PullScheduler.OrderedScheduler.Descend | src/parallel/ordered_pull/execution.rs:131-180 | entering a child never blocks, and the grown stack still owes the child's walk in front of what it owed |
| PullScheduler.OrderedScheduler.Replay | src/parallel/ordered_pull/execution.rs:131-180 | one loop turn sends the next piece of what the stack owed, in order, and what remains is owed by the new stack; a refusal is sent on exactly if it ended a wait |
| PullScheduler.OrderedScheduler.Drive | src/parallel/ordered_pull/execution.rs:131-180 | what is sent is exactly the visible part of a prefix of the recursive walk, followed by the schedule error exactly if a refusal ended a wait and the receiver is there; without interruption it is the whole walk up to the first aborting item; nothing is under way at the end |
| PullScheduler.OrderedScheduler.Run | src/parallel/ordered_pull/execution.rs:73-129 | the same from the root on, for every limit and completion order; a walk cancelled before it starts blocks, and blocking takes a cancellation; a refused root is reported; a refused first subdirectory ends the walk silently |
| PullScheduler.OrderedScheduler.AwaitRoot | src/parallel/ordered_pull/execution.rs:73-129 | the root is read unless the walk was cancelled before its submission, which blocks, or the executor refused it, which fails |
| PullScheduler.Program.PendingIsWalk | src/parallel/ordered_pull/execution.rs:131-180 | what a frame still owes by ids is the recursive walk of its remaining entries |
| PullScheduler.Policy.CutComplete | src/parallel/ordered_pull/execution.rs:73-129 | stopping at the first aborting item loses nothing if and only if no earlier item but the last aborts |
| PullScheduler.Policy.StreamsBegin | src/parallel/ordered_pull/execution.rs:73-129 | what a replay sends is always the beginning of the visible walk up to the first aborting item, and all of it unless interrupted |
| PullScheduler.Policy.RefusalsReported | src/parallel/ordered_pull/execution.rs:131-180 | as long as the receiver is there, a refusal reaches it if and only if it did not happen inside `prepare_frame` |
| PullScheduler.RequestedWorkers | src/parallel/mod.rs:236-245 | at least one worker, never more than the open-directory bound or an explicit request |
| OrderedPull.LoopMasked | src/walk_visit.rs:77-91 | a directory's entry as read under the worker's limit shows the skip of the whole walk if and only if there is no loop that only the worker's depth limit hides |
| FileTree.WorkerLimitInvisible | src/parallel/ordered_pull/mod.rs:121-150 | without followed links every child carries the skip the whole walk would give it |
| FileTree.VisitTells | src/walk_visit.rs:53-116 | an entry tells the kind of its tree; a directory is skipped for another file system, else for leaving the root, else for the depth limit, each if and only if that is the case, and descended into if and only if none is |
| OrderedPull.ReadBatch | src/parallel/ordered_pull/mod.rs:109-160 | the loop over the one-directory walker yields the directory's rows, sorted by path, errors included |
| OrderedPull.SortCommutes | src/parallel/ordered_pull/mod.rs:150-160 | sorting the rows of a directory is reading its sorted listing |
| OrderedPull.ListingOrderIrrelevant | src/parallel/ordered_pull/mod.rs:150-160 | the order in which the operating system lists a directory never shows in the stream |
| OrderedPull.WalkIsPreOrder | src/parallel/ordered_pull/execution.rs:37-129 | the walk the scheduler replays is the recursive pre-order with every directory sorted |
| OrderedPull.FiniteTree | src/parallel/ordered_pull/execution.rs:131-180 | every child is a smaller tree, so the replay ends on every finite tree |
| OrderedPull.OrderedParallel | src/parallel/ordered_pull/execution.rs:37-129 | in a calm environment the consumer gets, in pre-order, every error and every entry from `min_depth` on that is not the redirected output, under `Abort` up to and including the first error and under `Continue` of the whole walk, and nothing blocks; whatever happens it gets a beginning of that, and a schedule error after it exactly if a submission was refused elsewhere than in a frame being prepared; a refused first subdirectory leaves it with the root alone |
| OrderedPull.StreamIs | src/parallel/ordered_pull/execution.rs:140-167 | the items shown and the item that ends the walk are those of the stream described above, under both error policies |
| OrderedPull.RefusalUnreported | src/parallel/ordered_pull/scheduler.rs:85-126 | a run on a tree of three entries whose stream is the root alone, with no error |
| OrderedPull.CancelledRunBlocks | src/parallel/ordered_pull/execution.rs:73-109 | a run that is cancelled before its first refill blocks |
| LinkLoops.LoopEntered | src/parallel/ordered_pull/mod.rs:121-150 | inside a directory that links to itself the ordered walk enters n levels if and only if its own depth limit allows them |
| LinkLoops.LoopEndless | src/walk_visit.rs:77-91 | without a limit it enters every number of levels, while the serial walker shows the link once, as a loop, and stops |
| StatefulWalk.StatefulWalker.Next | src/stateful_walk/serial.rs:111-148 | each call takes the next visible item off the recursive stateful walk |
| StatefulWalk.CollectSerial | src/stateful_walk/serial.rs:48-148 | for every processor the drained iterator is the recursive walk in which each directory is processed once, its items follow as the processor left them, and an item is followed by a walk if and only if it is `Ok`, still has `read_children` and leads to a listed directory, which inherits the state the processor returned; errors and entries from `min_depth` on are shown |
| StatefulWalk.RunParallel | src/stateful_walk/parallel/execution.rs:29-174 | the parallel stream is a beginning of that same walk under every schedule, with refusals reported as in the ordered walk; in a calm environment it is all of it, under `Abort` up to and including the first error |
| StatefulWalk.ChildLeads | src/stateful_walk/serial.rs:126-142 | an item has a directory to read if and only if it is `Ok`, has `read_children` and its path ends in the name of a listed directory, and that directory inherits the state the batch was left with |
| StatefulWalk.WalkIsRecursive | src/stateful_walk/parallel/scheduler.rs:95-134 | what the scheduler walks is the recursive walk in terms of the processor and the listings |
| StatefulWalk.PrunedEnds | src/stateful_walk/serial.rs:126-142 | where the processor leaves no entry with `read_children` the walk ends with the batch |
| StatefulWalk.ParallelMatchesSerial | src/stateful_walk/parallel/scheduler.rs:11-134 | under `Continue` an uninterrupted parallel stream equals the serial one; in general nothing is lost if and only if no item but the last is an error or errors continue |
| DynamicWalk.StepKeepsCounted | src/parallel/dynamic/worker.rs:56-79 | `active` counts the working workers and no step leaves a sleeper without an active worker or a wake-up |
| DynamicWalk.StepKeepsConserved | src/parallel/dynamic/worker.rs:261-284 | finished, queued and active directories and their subtrees are together always the whole reachable tree, and `visited` counts the finished ones, until a stop |
| DynamicWalk.Progress | src/parallel/dynamic/worker.rs:56-79 | while some worker has not exited, some worker can take a step |
| DynamicWalk.StepDrops | src/parallel/dynamic/worker.rs:56-79 | every step uses something up, so no schedule runs forever but for spurious wake-ups |
| DynamicWalk.ExitedMeansDone | src/parallel/dynamic/worker.rs:261-284 | once all workers have exited without quit, cancel or abort, exactly the reachable directories are finished, each once, and `visited` is their count of visible entries |
| DynamicWalk.TakeStep | src/parallel/dynamic/worker.rs:56-79 | any scheduler choice among the enabled steps keeps all invariants and makes progress; undisturbed no cancellation, panic or refusal is chosen |
| DynamicWalk.StepKeepsUndisturbed | src/parallel/dynamic/worker.rs:261-284 | unless disturbed the traversal is never cancelled, it quits if and only if some finished directory asked for it, and `visited` counts the entries of exactly the finished directories |
| DynamicWalk.StepKeepsTraced | src/parallel/dynamic/worker.rs:261-284 | whatever is queued, active or finished is the root or was reported by a directory finished before it |
| DynamicWalk.QuietIsClean | src/parallel/dynamic/worker.rs:261-284 | if no reachable directory quits or has an aborting error, an undisturbed traversal is clean |
| DynamicWalk.RunWorkers | src/parallel/dynamic/mod.rs:65-152 | for every number of workers and every interleaving all workers exit, no directory is processed twice, and a clean run has processed them all; an undisturbed run has at least read the root, came to every directory from one finished before it, quits exactly if a finished directory asked for it, and is clean where none quits or aborts |
| DynamicVisit.QueuedExactly | src/parallel/dynamic/worker.rs:192-259 | a directory is queued if and only if it may be entered, its entry was answered with Descend and the batch did not quit |
| DynamicVisit.FiniteSource | src/parallel/dynamic/worker.rs:192-259 | children are smaller trees, whatever the visitor answers |
| DynamicVisit.RunBatched | src/parallel/dynamic/mod.rs:65-219 | the directories visited are, with multiplicity, among those reachable through entries that may be entered and that the visitor did not refuse, and all of them in a clean traversal; undisturbed, every directory was let through by one visited before it, the visible entries of the visited directories and of the root are counted, and the traversal quits if and only if the visitor did or an error aborts; it is clean if neither happens |
| DynamicVisit.ReportIs | src/parallel/dynamic/worker.rs:192-240 | the report of a directory in terms of its contents and of the visitor's answer to them: the directories to visit next, the visible entries, whether it has errors and whether it quits |
| DynamicVisit.AcceptedExactly | src/parallel/dynamic/worker.rs:201-226 | a directory is visited next if and only if it may be entered and the answer to its entry is missing or Descend, or the visitor is shown no entries above `min_depth` |
| DynamicVisit.TreeIsReached | src/parallel/dynamic/worker.rs:201-259 | what the shared queue works through is what is reachable through such answers |
| DynamicVisit.FileRootReadAsDirectory | src/parallel/dynamic/mod.rs:94-115 | an accepted regular-file root is read as a directory, which reports an error and quits where errors abort |
| Walker.Walker.constructor | src/walker/construction.rs:26-121 | a new walker still owes the whole recursive walk from the root |
| Walker.Walker.BufferOldest | src/walker/construction.rs:252-262 | closing the oldest handle frees exactly one handle and changes nothing of what the stack still yields |
| Walker.Walker.OpenDirectory | src/walker/construction.rs:203-250 | a new frame owes the recursive walk of its directory and then its post-order entry; handles stay within the bound and identities distinct |
| Walker.Walker.StartDirectory | src/walker/construction.rs:203-250 | either the directory is opened so, or its read error is the whole of its walk and its post-order entry is deferred |
| Walker.Walker.SchedulePending | src/walker/construction.rs:203-250 | turning the pending directory into a frame leaves the remaining walk as it was, up to the error it returns |
| Walker.Walker.SkipCurrentDir | src/walker/construction.rs:197-201 | exactly the events of the directory just visited leave the remaining walk |
| Walker.Walker.YieldError | src/walk_visit.rs:202-211 | under `Abort` nothing remains after the error, else the rest of the walk |
| Walker.Walker.Prepare | src/walk_iter.rs:119-150 | an entry is shown, hidden by depth or postponed as `contents_first` asks, and what is below it becomes pending |
| Walker.Walker.PopFrame | src/walk_iter.rs:8-93 | leaving an exhausted directory yields its postponed entry, if any, and forgets its handle and identity |
| Walker.Walker.TakeEntry | src/walk_iter.rs:8-93 | taking an entry splits its events off the front of the remaining walk |
| Walker.Walker.TakeRoot | src/walk_iter.rs:96-117 | the root is visited like any entry at depth 0 |
| Walker.Walker.VisitNext | src/walk_visit.rs:53-116 | visiting an entry yields the next event of the recursive walk, and only an error under `Abort` ends it |
| Walker.Walker.Next | src/walk_iter.rs:8-93 | each call returns the next shown item of the recursive walk, and `None` only when nothing remains |
| Walker.Collect | src/walk_iter.rs:8-150 | on every finite directory graph, link cycles included, the walker ends and yields exactly what the options promise: every directory with its first reason not to enter it, or with its contents behind or before it, under `Abort` up to the first error, whatever `max_open` is; every item lies on a trail of entered directories, so nothing below a link out of the root is yielded |
| WalkReference.SkippedExactly | src/walk_visit.rs:53-116 | a directory entry stays alone, skipped as a path escape, else as a file-system boundary, else for its depth, else as a link loop, each if and only if that is the first that applies; it is entered if and only if none does |
| WalkReference.EverythingShown | src/walk_visit.rs:53-199 | what the walker shows of its recursion is what the options promise for every kind of entry |
| WalkReference.EverythingOnTrail | src/walk_visit.rs:147-196 | every item's path leads from the root through directories that are inside the root, on its file system, above the depth limit and not on a link cycle |
| WalkGraph.Config.FirstEntry | src/walk_visit.rs:53-116 | the walk of a directory is the events of its first entry and then the walk of the rest |
| WalkGraph.ShownAppend | src/walk_iter.rs:8-93 | hidden events do not disturb the order of the shown ones |
| LaneWalk.AddedConserves | src/parallel/collect.rs:109-147 | shown entries, errors and subtrees below tasks together gain exactly what the serial walk reports for the entry |
| LaneWalk.ExpandTask | src/parallel/collect.rs:164-204 | expanding a task conserves the multiset of results, replaces the task by its subdirectories and records an error exactly if the read failed |
| LaneWalk.ExpandRound | src/parallel/collect.rs:149-162 | a round conserves the total and shrinks the work |
| LaneWalk.ExpandFrontier | src/parallel/collect.rs:149-162 | any number of rounds conserves the total, whatever the target |
| LaneWalk.CollectShallow | src/parallel/collect.rs:109-147 | the shallow read with the subtrees below its tasks is the whole walk |
| LaneWalk.RebasedTask | src/parallel/collect.rs:66-87 | a fresh walk with shifted limits, with its depths shifted back, is the walk of the subtree in place |
| LaneWalk.WalkTask | src/parallel/collect.rs:7-64 | both ways to walk a task yield its subtree |
| LaneWalk.CollectLane | src/parallel/collect.rs:7-64 | a lane holds its tasks' results in order, cut into segments of the recorded sizes |
| LaneWalk.Deal | src/parallel/mod.rs:166-222 | lane w holds the tasks w, w + workers, and so on |
| LaneWalk.RunLanes | src/parallel/mod.rs:166-222 | the lanes may complete in any order and land at their index |
| LaneWalk.TakeSegment | src/parallel/mod.rs:166-222 | the front segment of task i's lane is task i's result |
| LaneWalk.WalkLanes | src/parallel/mod.rs:166-222 | the report is the shallow part followed by every task's subtree in task order, for every worker count |
| LaneWalk.Walk | src/parallel/mod.rs:94-128 | the report holds every error of the ordered walk and every entry of it from `min_depth` on, without the redirected output if asked, each as often as it occurs there; the walk fails with a schedule error if and only if a lane is refused, and otherwise if and only if errors abort, there is one, and it was met at the root or tasks remained for the lanes |
| LaneWalk.WholeIsFullWalk | src/parallel/mod.rs:94-128 | the serial walk of the lanes and the sorted pre-order of the pull walk meet the same items |
| LaneWalk.WithoutStdout | src/parallel/mod.rs:266-282 | exactly the regular files that are the redirected output leave the entries |
| LaneWalk.KeptHeld | src/parallel/mod.rs:272-282 | taking the redirected output out of a report is taking it out of the walk |
| LaneWalk.AbortIsMissed | src/parallel/mod.rs:94-128 | a tree whose error is returned inside a successful report although errors abort |
| Glob.MeansCut | src/glob.rs:77-154 | a value means a token list if and only if some first piece fits the first token and the rest the rest |
| Glob.MeansStep | src/glob.rs:77-154 | how a star, a double star and a single byte consume a value from the left, against the split meaning |
| Glob.HoldsStep | src/glob.rs:77-175 | the meaning at a (pattern index, value index) cell in terms of later cells only |
| Glob.MatchesAt | src/glob.rs:77-154 | the memoised recursion returns the split meaning of its cell, keeps every memo entry right and evaluates only cells it fills for the first time |
| Glob.MatchDoubleStar | src/glob.rs:156-175 | the same for a double star, which with a following slash absorbs any string |
| Glob.CharacterClass | src/glob.rs:177-208 | the in-place class scan accepts a byte if and only if the parsed class does, and stops where the parse stops |
| Glob.Evaluate | src/glob.rs:77-154 | the body behind the memo asks later cells only |
| Glob.MatchesLeaf | src/glob.rs:1-10 | without groups the answer is the split meaning of the tokens, with at most one evaluation per cell |
| Braces.ScanOpen | src/glob.rs:12-35 | the first loop finds the first unescaped brace outside classes |
| Braces.ScanAlternatives | src/glob.rs:36-65 | the second loop cuts the group at its own commas and closing brace |
| Braces.LeavesOfMatching | src/glob.rs:66-75 | some alternative matches if and only if some fully expanded leaf does |
| Braces.Matches | src/glob.rs:1-75 | for every pattern and value the matcher ends and answers whether some expansion splits the value |
| BraceCount.LiftScan | src/path_pattern.rs:104-137 | counting a text inside open groups multiplies what is there by the text's own count |
| BraceCount.GroupCounts | src/path_pattern.rs:114-137 | a closed group counts the sum over the alternatives that the recursive expansion finds |
| BraceCount.LeavesCounted | src/path_pattern.rs:139-201 | the one-pass stack count of a well-braced pattern is the number of leaves of the recursive expansion |
| BraceCount.ExceedsScan | src/path_pattern.rs:259-278 | a count over the limit never comes back under it, so stopping early is right |
| PathPattern.ScanClass | src/path_pattern.rs:203-232 | a class that does not start with `]` ends where the matcher's brace scanner leaves it |
| PathPattern.SyntaxCountable | src/path_pattern.rs:139-201 | a pattern without syntax errors is well braced for the matcher |
| PathPattern.ValidateCharacterClass | src/path_pattern.rs:203-232 | the loop finds the end or the first error of the class |
| PathPattern.ClassAgrees | src/path_pattern.rs:203-252 | validation accepts a class if and only if the glob reads it as a class and every range runs upwards, and both end it at the same byte; otherwise the error points at the last byte, the dash or the opening bracket |
| PathPattern.FinishAlternative | src/path_pattern.rs:114-125 | an alternative ends if and only if it has a token and keeps the sum within 256; else the error says which |
| PathPattern.Validate | src/path_pattern.rs:139-201 | syntax errors are reported as specified, and a syntactically valid pattern without classes starting with `]` is accepted if and only if it expands to at most 256 leaves, else rejected with ExpansionLimitExceeded; without braces outside classes, as validation reads them, only syntax decides |
| PathPattern.LeadingBracketDiffers | src/glob.rs:12-35 | for every n a pattern of 3n + 3 bytes that validation accepts and the matcher expands to 2^n leaves, past the limit from n = 9 on |
| PathPattern.BypassLeaves | src/glob.rs:12-75 | every group inside such a class doubles the leaves |
| Matcher.LongestLiteral | src/ignore/matcher.rs:116-145 | the scan computes the longest literal run of at least two bytes |
| Matcher.NeedleIsLongest | src/ignore/matcher.rs:116-198 | the needle is the first of the longest runs of literals, and there is one if and only if some run has two bytes |
| Matcher.FormsExactly | src/ignore/matcher.rs:17-40 | a pattern without special bytes is compared as a whole, `*s` and `p*` with such a text are tested at the end and the beginning, and no other pattern gets one of these forms |
| Matcher.LowerFolds | src/ignore/matcher.rs:68-114 | exactly the capital letters of ASCII are folded |
| Matcher.EdgeLiteral | src/ignore/matcher.rs:147-182 | the scan computes the literal run at the front or at the end, without a leading slash if some `**/` could have absorbed it |
| Matcher.RunMatcher | src/ignore/matcher.rs:67-107 | literals, prefixes, suffixes and prefiltered globs decide as specified, in both cases of letter case |
| Matcher.HeadSound | src/ignore/matcher.rs:147-182 | every value the tokens mean begins with the head |
| Matcher.NeedleSound | src/ignore/matcher.rs:116-145 | every value the tokens mean contains the needle |
| Matcher.TailSound | src/ignore/matcher.rs:147-182 | every value the tokens mean ends with the tail, up to an absorbed slash |
| Matcher.PrefiltersSound | src/ignore/matcher.rs:31-40 | on patterns without groups the prefilters never reject a value that the glob accepts |
| Matcher.FastForms | src/ignore/matcher.rs:17-40 | matcher and glob agree on a value if and only if it is not a prefix or suffix test with a slash in the rest |
| Matcher.FastFormsOnNames | src/ignore/matcher.rs:67-107 | on slash-free values they always agree |
| Matcher.MisalignedRejects | src/ignore/matcher.rs:147-182 | a dangling escape and an escape in a class make the prefilters reject accepted values |
| Prefilters.OrdinaryAligned | src/ignore/matcher.rs:116-182 | on patterns without class escapes, classes starting with `]` and dangling escapes, the literal scanners and the glob read the same tokens |
| Prefilters.LeavesKeep | src/glob.rs:12-75 | every expansion begins with the head of the written pattern and ends with its last run |
| Prefilters.RunScanned | src/ignore/matcher.rs:147-182 | the run found by the tail scanner is literal tokens, but for a slash that a double star absorbed |
| Prefilters.AbsorbedRejects | src/ignore/matcher.rs:67-107 | an absorbed slash yields a value that the glob accepts and the tail prefilter rejects |
| Prefilters.PrefiltersExact | src/ignore/matcher.rs:31-40 | for every ordinary pattern, groups included, the prefilters reject no accepted value if and only if no fillable expansion absorbs the slash in front of the last run |
| Prefilters.GroupsAgree | src/ignore/matcher.rs:67-107 | a matcher for a pattern with a brace agrees with the glob on all values under exactly that condition |
| Prefilters.GroupRejects | src/ignore/matcher.rs:147-182 | `{a,**}/b` is such a pattern and `b` such a value |
| Prefilters.DanglingExact | src/ignore/matcher.rs:116-182 | with an escape behind an ordinary pattern without groups the prefilters reject no accepted value if and only if the pattern cannot be filled or its required end is made of escapes |
| IgnoreRules.IndicesAtAre | src/ignore/rules.rs:4-19 | a bucket holds exactly the numbers of the rules that belong there, ascending |
| IgnoreRules.KeysKept | src/ignore/matcher.rs:42-65 | a rule with a first- or last-byte key matches only subjects with that byte there |
| IgnoreRules.RuleIsLookedUp | src/ignore/rules.rs:35-70 | every matching rule is in one of the buckets that are searched |
| IgnoreRules.BestDecides | src/ignore/rules.rs:35-70 | the best number over the searched buckets decides as the last match of a linear scan |
| IgnoreRules.DecisionExactly | src/ignore/rules.rs:35-70 | the decision is the action of rule k if and only if rule k matches and no rule behind it does, and there is none if and only if no rule matches |
| IgnoreRules.RuleSet.BestMatch | src/ignore/rules.rs:72-89 | the backward search of a bucket, cut off early, improves the best number to the best over one more bucket |
| IgnoreRules.RuleSet.MatchesExact | src/ignore/rules.rs:35-70 | for every path the action of the highest-numbered matching rule, as in a linear last-match-wins scan |
| IgnoreRules.RuleSet.MatchRule | src/ignore/rules.rs:21-33 | the exact decision, else that of the nearest ancestor with one, as a directory |
| IgnoreRules.RuleList.Push | src/ignore/rules.rs:4-19 | appends the rule and keeps every bucket right |
| IgnoreLayers.MatchRules | src/ignore/mod.rs:198-219 | the loops over sources and layers compute the on-demand decision |
| IgnoreLayers.MatchSource | src/ignore/mod.rs:198-219 | one source decides or hands on whether an included ancestor was seen |
| IgnoreLayers.MatchPreparedRules | src/ignore/mod.rs:221-234 | the loops compute the prepared decision: the first exact word of the innermost layer of the last source |
| IgnoreLayers.PreparedExactly | src/ignore/mod.rs:221-234 | the prepared decision is the action of one rule: the last matching rule of the first layer that has one |
| IgnoreLayers.CandidateIs | src/ignore/mod.rs:236-242 | a layer sees exactly the part of a path below its base |
| IgnoreLayers.CandidateAbove | src/ignore/mod.rs:236-242 | what a layer sees of an ancestor is an ancestor of what it sees of the path |
| IgnoreLayers.SilentOnAncestors | src/ignore/rules.rs:21-33 | a layer with no word on a path has none on its ancestors |
| IgnoreLayers.FirstWordIsNoIgnoredAncestor | src/ignore/mod.rs:198-219 | on a reached path the first layer to speak never reports an ignored ancestor |
| IgnoreLayers.OnDemandAgreesWithWalk | src/ignore/mod.rs:198-234 | if no proper ancestor is ignored, a prepared decision is the on-demand one, and no prepared decision means none or Include on demand, for any sources and layers |
| IgnoreLayers.IncludedBelow | src/ignore/mod.rs:198-234 | where the walk has no word, the on-demand lookup says Include if and only if the walk includes some directory above the path |
| IgnoreLayers.DeeperLayersSilent | src/ignore/mod.rs:236-242 | layers based at or below a path have no say about it in either lookup |
| IgnoreLayers.SelectionAgreement | src/ignore/repository/matching.rs:144-176 | with overrides and hidden entries both decisions ignore the same entries, except exactly hidden ones on which no layer has a word below a directory that the walk explicitly includes |
| IgnoreLayers.SelectionDiffers | src/ignore/repository/matching.rs:144-176 | with `a` included, the hidden file `a/.h` is included on demand and hidden in the walk |
| RepositoryRules.BuildChildRules | src/ignore/mod.rs:145-196 | the layers and evidence of a directory are those of its own rule files in front of the inherited ones |
| RepositoryRules.RepositoryMatcher.constructor | src/ignore/repository/matching.rs:15-43 | a new matcher has prepared nothing and its evidence is that of the static sources |
| RepositoryRules.RepositoryMatcher.PrepareDirectory | src/ignore/repository_source.rs:39-79 | prepares the directory and its ancestors, each once, with the right layers and evidence, and nothing else |
| RepositoryRules.RepositoryMatcher.Matched | src/ignore/repository/matching.rs:15-43 | the cached matcher answers the on-demand decision of the tree, whatever was prepared before |
| RepositoryRules.RepositoryMatcher.MatchedPrepared | src/ignore/repository/matching.rs:120-176 | in a prepared directory the answer is the walk's decision |
| ScanSelection.ChildSilent | src/ignore/mod.rs:145-196 | a directory's own rules have no say about paths outside of it |
| ScanSelection.DecisionStable | src/ignore/mod.rs:221-242 | a directory is decided the same way with the layers of any directory at or below it |
| ScanSelection.DemandAgrees | src/ignore/repository/matching.rs:15-43 | in an entered directory the on-demand lookup ignores exactly what the walk ignores |
| ScanSelection.ScanUnique | src/scanner/entry.rs:59-192 | two complete scans of one tree report the same files in the same order |
| SourceEvidence.SameStatics | src/scanner/watch_update/sources.rs:5-30 | unchanged evidence means unchanged static rule sources |
| SourceEvidence.NewRuleNoticed | src/scanner/watch_update/sources.rs:5-17 | a rule file that has come or changed in an entered directory would have been noticed |
| SourceEvidence.LostRuleNoticed | src/scanner/watch_update/sources.rs:18-43 | a rule file that has gone would have been noticed |
| SourceEvidence.EnteredSameRules | src/scanner/watch_update/sources.rs:5-43 | both trees' walks enter the same directories, with the same rules at and above them |
| SourceEvidence.UntouchedReported | src/scanner/watch_update/sources.rs:5-43 | a file the plan leaves alone is reported now if and only if it was reported before |
| SourceEvidence.SourcesStay | src/scanner/watch_update/sources.rs:5-43 | the previous evidence is what a fresh scan would gather |
| SourceEvidence.ChangedExactly | src/scanner/watch_update/sources.rs:5-59 | the evidence has changed unless the static sources are the same, every rule file read now was read before with the same content, and every rule file read before is read again or lies inside the root, below its top directory, in a directory neither above, at nor below an invalidated path |
| WatchEvents.Plan | src/watch.rs:137-187 | a path is changed or removed exactly as its last event says, each listed once in order, and a rescan is asked for exactly on structural events and rule files |
| WatchUpdate.FullScan | src/scanner/discovery.rs:26-52 | a scan that enters directories in any order reports exactly the selected files and rule sources of the tree |
| WatchUpdate.AncestorsSelected | src/scanner/watch_update/mod.rs:227-253 | the on-demand climb selects a path's ancestors if and only if the walk enters its directory, and reads rules only in directories that the walk enters on the way |
| WatchUpdate.ChangedCandidate | src/scanner/watch_update/mod.rs:166-225 | a changed path is a candidate if and only if a full scan would select it, and asks for a full scan if and only if it is a directory; it adds exactly the rules of the directories that the walk enters on the way to it |
| WatchUpdate.RetainFiles | src/scanner/watch_update/retain.rs:5-25 | exactly the files outside all invalidated prefixes stay |
| WatchUpdate.UpdateIsScan | src/scanner/watch_update/mod.rs:35-121 | the retained and the found files, sorted, are the files of a fresh scan |
| WatchUpdate.ScanWatchPlan | src/scanner/watch_update/mod.rs:35-140 | whichever way the update takes, its report is the report of a fresh full scan of the new tree; the reason is decided by the inputs: where nothing structural asks for a full scan it is incremental if and only if the rule evidence stands, compared for exactly the directories that the walk enters on the way to a changed file |
| WatchUpdate.SameRulesDecide | src/scanner/watch_update/sources.rs:18-43 | with the same static sources and rule files in both trees an update stays incremental if and only if every rule file of an entered directory is read again or has nothing to do with the invalidated paths |
| WatchUpdate.ReadIsEntered | src/scanner/watch_update/mod.rs:166-253 | an update reads rules only in directories that the walk enters |
| WatchUpdate.NeighbourStands | src/scanner/watch_update/sources.rs:32-43 | a change of `b/x` leaves `a/.gitignore` out of the question |
| WatchUpdate.Follow | src/scanner/watch_update/mod.rs:35-121 | after any number of updates the report still equals every fresh full scan of the last tree, and each update is incremental if and only if nothing structural happened and the rule evidence stands |
| Paths.SplitAtLastSlash | src/path.rs:22-34 | the parent and the name are the two sides of the last slash |
| Paths.AboveIsCut | src/path.rs:22-34 | the chain of parents holds exactly the path and its cuts at slashes |
| Paths.AboveIsSameOrDescendant | src/path.rs:10-15 | the chain agrees with `is_same_or_descendant` but for the empty prefix and a leading slash |
| Paths.PathCoveredByPrefixes | src/path.rs:22-34 | the climb finds a prefix if and only if some prefix is the same path or above it |
| Paths.TopmostCovers | src/path.rs:40-54 | the topmost prefixes cover what all cover, and none is above another |
| Paths.CollapsePathPrefixes | src/path.rs:40-54 | the collapsed set is the topmost prefixes, for every list: it covers the same paths, and no member covers another |
| Sha256.Schedule | src/hash.rs:195-237 | the message schedule is W of section 6.2.2 of FIPS 180-4 |
| Sha256.Compress | src/hash.rs:195-237 | the rounds in place compute the compression function on the old state |
| Sha256.FingerprintHasher.Write | src/hash.rs:139-162 | a chunk of any length at any point appends to the message: state is the fold over complete blocks, buffer the remainder |
| Sha256.FingerprintHasher.Finish | src/hash.rs:164-185 | the digest is the hash of the padded message, for both ways the padding can fall |
| Sha256.PaddedIs | src/hash.rs:164-185 | the one or two blocks that the code builds are the padding of section 5.1.1 |
| Sha256.LengthExact | src/hash.rs:164-185 | below 2^61 bytes the appended length is the exact bit length |
| Sha256.LengthReads | src/hash.rs:174 | the eight bytes appended for the length spell it, most significant first |
| Sha256.PaddingMeans | src/hash.rs:164-176 | what is hashed is the message, a one bit, fewer than 64 zero bytes and the bit count modulo 2^64, in whole blocks |
| Sha256Standard.InitialStateRoots | src/hash.rs:1-10 | the initial state is the fractions of the square roots of the first eight primes (section 5.3.3 of FIPS 180-4) |
| Sha256Standard.Roots0 | src/hash.rs:12-77 | the first four round constants are the fractions of the cube roots of the first primes; `Roots4` to `Roots60` say so of the other sixty (section 4.2.2) |
| Sha256Standard.OneBit | src/hash.rs:201-221 | the functions of section 4.1.2 turn and shift by the amounts of the standard |
| Sha256Standard.Choice | src/hash.rs:215 | the choice takes each bit from the second or third word as the first says |
| Sha256Standard.Majority | src/hash.rs:222 | the majority has the bits that two of three words have |
| Sha256Standard.FirstByte | src/hash.rs:197-199 | words are read most significant byte first; `SecondByte` to `FourthByte` complete it |
| Sha256Standard.DigitsInOrder | src/hash.rs:180-185 | the digest text shows every word most significant digit first |
| Sha256.HashChunks | src/hash.rs:139-185 | every split of a message into chunks, empty ones included, gives the same digest |
| Revision.SourcePeels | src/scan_finalize.rs:48-61 | the first source can be read off the encoding |
| Revision.FilePeels | src/scan_identity.rs:143-155 | the first file can be read off the encoding |
| Revision.SourceIsNoFile | src/scan_finalize.rs:48-81 | a source never reads as a file, though neither carries a tag |
| Revision.EncodingInjective | src/scan_finalize.rs:48-81 | two revision inputs are equal if and only if sources, files, portability and termination are |
| Revision.RevisionDetermines | src/scan_identity.rs:122-155 | the same for the bytes that reach the hash |
| Revision.DiscoveryOrderIrrelevant | src/scan_finalize.rs:8-42 | evidence found in any order, sources found repeatedly, gives the same revision input |
| Revision.DigestIsHashShaped | src/hash.rs:164-187 | digests have the fixed shape that the encoding relies on |
| Revision.TagsInOrder | src/scan_identity.rs:122-141 | sources and reasons to stop carry the numbers of their places, from one on |
| Revision.LayoutIs | src/scan_finalize.rs:48-81 | the bytes of the encoding, written out: header, sources, files, portability and the reason to stop, with their separators |
| Revision.LittleEndianReads | src/scan_identity.rs:143-155 | the eight size bytes of a file spell its size, least significant first |
| Revision.RevisionBuilder.Write | src/scan_finalize.rs:48-81 | appends to what has been hashed |
| Revision.RevisionBuilder.WriteSources | src/scan_finalize.rs:48-61 | hashes the header and every source in order |
| Revision.RevisionBuilder.Push | src/scan_finalize.rs:62-69 | hashes one file |
| Revision.RevisionBuilder.Finish | src/scan_finalize.rs:70-81 | the revision is the digest of everything written and the trailer |
| Revision.FinalizeReport | src/scan_finalize.rs:8-17 | the report's revision is the digest of the encoding of its sorted evidence |
| Delta.MergeFiles | src/delta.rs:113-144 | on any two lists every file goes to exactly one of unchanged, modified, removed and added, in pairs at a common path; on manifests these are what membership of the paths says |
| Delta.AlikeIs | src/delta.rs:146-152 | two files count as unchanged if and only if their sizes are equal and their hashes are, or, where a hash is missing, the known modification times are equal and nothing else known differs |
| Delta.HashCounts | src/delta.rs:185-191 | how many files carry each hash |
| Delta.UniqueIndices | src/delta.rs:193-207 | exactly the hashes that one file carries, each with that file |
| Delta.DetectUniqueRenames | src/delta.rs:154-183 | exactly the removed and added files whose hash is unique in both manifests become renames |
| Delta.RetainUnmarked | src/delta.rs:209-216 | exactly the files that are no side of a rename stay, in order |
| Delta.Between | src/delta.rs:54-79 | sorting, merging and pairing compute the delta of the two file lists |
| Delta.PreviousPartition | src/delta.rs:113-216 | unchanged, modified, removed and renamed files are the previous manifest, as multisets |
| Delta.CurrentPartition | src/delta.rs:113-216 | unchanged, modified, added and renamed files are the current manifest |
| Delta.RenamesAreUnique | src/delta.rs:154-183 | a rename joins two different paths whose hash no other file of either manifest has |
| Delta.SwapSymmetry | src/delta.rs:113-216 | swapping the manifests swaps added with removed and the sides of every pair |
| ContentVisit.RunSnoc | src/content/inspect/visitor.rs:48-276 | the protocol automaton reads traces event by event |
| ContentVisit.FileVisit.OnChunk | src/content/inspect/visitor.rs:113-200 | a chunk is inspected, hashed and delivered at the next offset, within the cap, and never after SkipFile or Quit; the read goes on exactly unless a zero byte was found, the visitor quit, or it has skipped the file and neither hash nor binary check needs its bytes |
| ContentVisit.FileVisit.ReadBounded | src/content/bounded.rs:38-83 | for every reader the delivered bytes are a prefix of the stream within the cap, with at most one further byte read |
| ContentVisit.FileVisit.Deliver | src/content/bounded.rs:38-83 | of the bytes just read exactly those within the cap are passed on, and a byte beyond it ends the read as grown |
| ContentVisit.FileVisit.ReadChunks | src/content/inspect/visitor.rs:113-200 | a stopped read ends the visit without an End event, and a hash is a hash of exactly the bytes read; a file is left unread only after a zero byte, a skip that nothing else outvotes, growth beyond the cap, or without a buffer |
| ContentVisit.FileVisit.EmitEnd | src/content/inspect/support.rs:22-52 | exactly one End event, with the final byte count, closes the trace |
| ContentVisit.FileVisit.FinishVisit | src/content/inspect/visitor.rs:203-276 | the file ends as changed if and only if its size or version differs from the Start event, else as binary or selected as the bytes read say, with the hash of exactly these bytes |
| ContentVisit.FileVisit.InspectContent | src/content/inspect/visitor.rs:48-98 | the part behind the Start event keeps the protocol, and its outcome tells how the trace ended |
| ContentVisit.FileVisit.Inspect | src/content/inspect/visitor.rs:48-98 | a file's trace is Start, contiguous chunks from 0 and at most one End, cut anywhere; it is selected if and only if the trace ended so; a file that fits and is left alone is delivered whole, or found binary exactly if it holds a zero byte that is looked for |
| ContentVisit.VisitFile | src/content/visit.rs:62-111 | the outcome of a file matches its trace: bytes delivered, quit, selected; a calm file is selected with its whole content or binary |
| ContentVisit.VisitFiles | src/content/visit.rs:9-59 | files are visited in order, nothing follows a quit, and the totals are the sums over the traces; if nothing interferes every file is visited and exactly the texts are completed; it fails exactly where errors abort, at the first file that could not be read or has changed, with that file's error; a file left in the middle by a cancellation or the deadline is the last one, and the reason is reported |

## Left out

- Delta.SwapSymmetry: compares renamed pairs as a multiset, because they are reported in the order of their removed files and swapping the inputs reorders them.
- Delta.Between: is about reports that list every path once, as scans do; with repeated paths the order that an unstable sort leaves them in is unspecified, and so is the pairing.
- Delta.DetectUniqueRenames: likewise works on the merge of two manifests.
- Matcher.PrefiltersSound: asks that every class ends where the literal scanners see its end; `Matcher.MisalignedRejects` shows an escape inside a class on which the prefilters are unsound, and which such classes are harmless is not characterised.
- Prefilters.PrefiltersExact: is about case-sensitive matching of ordinary patterns; ASCII case folding is modelled in `Matcher.RunMatcher` only.
- Prefilters.DanglingExact: does not cover a dangling escape behind brace groups.
- OrderedPull.LoopMasked: is about one entry; `LinkLoops` states what follows for a walk.
- OrderedPull.ReadBatch: reads the listing directly instead of running a walker on one directory; a cancellation in the middle of a read appears as a torn batch of `PullScheduler.OrderedScheduler.Receive`.
- LaneWalk.Walk: the branches for followed links, which use the dynamic scheduler, and for callers on a worker thread, which walk serially, are not in it.
- RepositoryRules.RepositoryMatcher.constructor: takes the static rule sources as given.
- RepositoryRules.RepositoryMatcher.Matched: decides by the rule layers; overrides and hidden entries come in with `IgnoreLayers.SelectionAgreement`.
- RepositoryRules.RepositoryMatcher.MatchedPrepared: likewise decides by the rule layers.
- WatchUpdate.FullScan: has no overrides, hidden filter, symlinks, byte budget or skip evidence.
- WatchUpdate.AncestorsSelected: has no overrides and no hidden filter.
- WatchUpdate.ChangedCandidate: has no overrides, hidden filter, symlinks or byte budget.
- WatchUpdate.Follow: is about the same reduced scan.
- WatchUpdate.ScanWatchPlan: compares files and rule sources only; skip and warning evidence, overrides, the hidden filter, symlinks, the byte budget and a minimum depth are not in the scan model, and file contents stand for their hashes, so collisions do not occur.
- ContentVisit.VisitFiles: the reported byte total omits files whose visit ended in an I/O error, as in the code; the chunk and skip counters and the skip evidence are not kept.
- StatefulWalk.ParallelMatchesSerial: compares streams that were not interrupted; an interrupted stream is a prefix, as `StatefulWalk.RunParallel` says.
- Walker.Collect: the consumer does not call `skip_current_dir` between items; `Walker.Walker.SkipCurrentDir` states what a single call removes.
- Directory trees of the parallel walks are finite values, so link cycles occur in the serial walker's graph only.
- Threads, executors, channels and panics appear as the scheduling steps they cause; panic payloads and the coordinator's error text do not appear.
- Saturation of u64 and usize counters and ids is not modelled, except for the bit length of a hashed message.
- Real file-system calls, canonicalisation, metadata, hidden attributes and Windows paths; listings, identities and boundaries are given.
- Git configuration, global and exclude file discovery and the parsing of rule files; a function from file content to rules stands for the parser.
- Rule sources above the scan root, and refreshing a matcher after its rule files change.
- Rule sets inside layers are values; the list that builds them is a class.
- In content visits the running hash is held as the bytes it has been fed.
- The unordered streaming visitor, per-root multi-scans and compact reports, which reuse the walks modelled here.
- The content fingerprint, the policy descriptor, the file-type table, option builders, display code, JSON, benches and language bindings.
