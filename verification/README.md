# Verified models of Autotest's client and command line algorithms

Autotest drives tests on a machine (the client) and is steered from a command
line tool (the CLI). This project models the parts of both that keep state or
search for something, and proves what they are for:

* **The CLI's worker pool** (`ThreadPool`), shut down by "die" tokens while
  workers may still add workers. It is a transition system rather than a class:
  its operations have no useful meaning one call at a time, only as interleavings
  of single queue operations, thread starts and counter updates.
* **The client job** (`JobPrograms`, `JobSpec`, `JobEngine`, `JobTraces`,
  `JobTrees`, `JobRuns`, `JobReplays`, `JobReboots`, `JobMarks`, `JobStatus`,
  `JobCrashes`, `JobSignals`, `JobIdentity`, `ClientJob`): a persistent list of
  steps that enqueue steps, kept across reboots and crashes, and a persistent indent that follows START and END entries of the
  status log. `ClientJob` is the object with its fields and loops; its methods are
  proved equal to functions of `JobSpec`, keep the invariant that the indent
  counts the open STARTs of the log, and state what that means for their caller.
* **The memory containers** (`RangeLists`, `Globbing`, `Containers`,
  `ContainerRelease`, `ContainerRuns`, `ContainerManager`): a tree of containers
  that own memory nodes and are found by file name patterns, the allocator, the
  recursive release, and the printed form of node sets.
* **Kernel modules** (`ModuleGraph`, `KernelModules`): a list that grows while it
  is walked, and unloading users first in a table that changes on the way.
* **Item lists and failure reports** (`ItemLists`, `ItemParse`, `Replacing`,
  `Failures`): the escaped lists of the CLI, how the parsers of a command share
  its arguments, and error messages filed under a tag that stands for the item.
* **Kernel versions** (`KernelVersions`, `KernelForms`, `KernelConfigs`): keys that order
  versions as text, and the search for the nearest known configuration.
* **Symbolic links** (`LocalHost`): a worklist that collects what links lead to.

`Sequences`, `Sets`, `Options`, `Sorting` and `Text` hold the counting, sorting
and decimal facts the others use.

Main theorems, hardest first:

1. `ThreadPool.WaitAlwaysReturns`, `ThreadPool.WaitReturnsWithAllWorkDone`,
   `ThreadPool.WaitJoinsAllThreads`, `ThreadPool.AssertNeverFails`: under every
   schedule `wait` terminates, its assertion holds, no worker is alive when it
   returns, the work queued before it has been run to its end exactly as often as
   it was queued, and the threads joined are those asked for and those that the
   work has added.
2. `JobReboots.RebootsAreTransparent`, `JobTraces.EachStepAtMostOnce`,
   `JobTraces.NextStepsRunInPreorder`: what a job runs does not depend on how
   often it reboots or crashes between steps.
3. `JobStatus.VerdictOfTree`, `JobStatus.AssertHoldsExactly`,
   `JobStatus.GoodExactly`, `JobSignals.StepEndsExactly`,
   `JobCrashes.CrashClosedExactly`, `JobCrashes.ReportedAgainExactly`: what the
   assertion on the indent finds, known from the program before it runs, when a
   job ends as good, which statement decides how a step ends, and which crashes
   are closed once, never, or twice.
4. `ContainerRelease.ReleaseFinishesExactly`, `ContainerRelease.ReleaseConfined`,
   `ContainerRuns.ReachableExclusive`, `Containers.CreateKeepsDisjointExactly`,
   `Containers.UnrelatedShareNothing`, `Containers.NodesConserved`, with the class
   `ContainerManager.CgroupFs` that refines the tree functions.
5. `KernelModules.Unload`, `ModuleGraph.SubmodulesAreTransitiveUsers`.
6. `ItemLists.ParserIsScanExactly`, `ItemLists.ItemsRoundTrip`,
   `Failures.RestoredExactly`, `Failures.ReportsRecoverable`,
   `ItemParse.ArgumentsReachOneAttribute`.
7. `KernelVersions.KeysOrderExactly`, `KernelForms.KeyBehindText`,
   `KernelForms.BuildsKeepOrder`, `KernelConfigs.VersionChooseConfig`.
8. `LocalHost.SymlinkClosure`, `RangeLists.RangelistRoundTrip`.

## Where the code does not do what it says

The model follows the code. Each case below is stated as a lemma.

* `_boot_kernel` passes its notes in the position of `end_reboot_and_verify`'s
  parameter `type`. The documented check of the running kernel's identity takes
  place if and only if these notes are the word 'src' or 'rpm'
  (`JobIdentity.IdentityIgnoredExactly`); a job that boots kernels with their list
  of patches does not notice a wrong one (`JobIdentity.WrongKernelsUnnoticed`).
* The mark `unexpected_reboot` is discarded when a nested test or group ends, so
  that a crash in the outer group afterwards is never closed
  (`JobCrashes.CrashClosedExactly`), and it is not discarded by the resume that
  reports it, so that a later resume may report it again
  (`JobCrashes.ReportedAgainExactly`). `JobStatus.AssertHoldsExactly` says for
  which programs the assertion survives.
* The functions that a step is defined in are called again to build its frame, and
  queue their steps again. The documented order of the list is kept exactly if
  they queue nothing (`JobEngine.StepLayoutExactly`); a small job that only calls
  next_step is never done (`JobReplays.QueueingNeverEnds`). The results about
  whole jobs are stated for jobs in which no function both queues and returns a
  step_init.
* A container's path is put into a file name pattern as it is. A child whose name
  starts with a dot, or any child of a container called a[b], is not found, and
  its nodes are given away again (`Containers.UnfoundSharesNodes`). Siblings stay
  disjoint exactly while no such child holds the nodes
  (`Containers.CreateKeepsDisjointExactly`).
* A release does not find such a child either, and raises; the release of a
  container called c* finds the children of others and releases these
  (`ContainerRuns.StarReachesOthers`). When a release finishes is
  `ContainerRelease.ReleaseFinishesExactly`, and what it can change
  `ContainerRelease.ReleaseConfined`.
* A request for 0 megabytes takes all free nodes, since `nodes[-0:]` is the whole
  list (`Containers.GrantIsNeededExactly`, `Containers.EmptyRequestStarves`).
* The comment on version keys promises a result that is "sortable textually". It
  is so exactly for numbers up to 99, and 98 for release candidates
  (`KernelVersions.KeysOrderExactly`).
* The item parser uses NUL characters for its own purposes; it agrees with a
  one-pass parser exactly on inputs without them (`ItemLists.ParserIsScanExactly`).
* Restoring a tagged message fails exactly when the tag already stands in the
  message between occurrences of the item (`Failures.RestoredExactly`).

## Model

| member | source | states |
|---|---|---|
| ThreadPool.PoppedIsStarted | cli/threads.py:34-39 | a thread popped from the registry is never one that was registered but not started, because whoever would start it stands before it in the registry |
| ThreadPool.NotAliveMeansFinished | cli/threads.py:37-38 | in every reachable state the thread inspected by wait is not alive if and only if it has finished |
| ThreadPool.TokensEqualLiveThreads | cli/threads.py:27-53 | once wait has read numthreads, tokens queued, to be posted and owed for registered threads count exactly the live threads, plus the spawns from before wait |
| ThreadPool.EmptyMeansAllDead | cli/threads.py:40-42 | when wait finds the registry empty, dead, numthreads, the threads ever registered and the finished ones are the same number |
| ThreadPool.AssertNeverFails | cli/threads.py:41 | no interleaving makes the assertion of wait fail |
| ThreadPool.KeepsInv | cli/threads.py:24-76 | every step of the main thread or any worker keeps the registry order, the token balance and the work count |
| ThreadPool.WaitReturnsWithAllWorkDone | cli/threads.py:24-76 | when wait returns every worker has finished, the runs completed are the queued work as multisets, and the queue holds only the tokens of spawns from before wait |
| ThreadPool.ThreadsPromised | cli/threads.py:44-60 | in every interleaving numthreads and the threads that work in the queue and in the hands of workers has still to add are together the number asked for and the threads that all the queued work adds (with lines 17-22) |
| ThreadPool.WaitJoinsAllThreads | cli/threads.py:17-42 | when wait returns, dead is the number of threads asked for plus one for each call of add_one_thread_post_wait by the queued work |
| ThreadPool.SomeStepEnabled | cli/threads.py:24-42 | from the call of wait until it returns some step can be taken, so the pool does not deadlock |
| ThreadPool.RemainingDecreases | cli/threads.py:24-76 | each step after the call of wait lowers a bound on the steps left |
| ThreadPool.WaitAlwaysReturns | cli/threads.py:24-42 | any run from inside wait is no longer than a bound, and one that cannot be continued has returned with all work done and no live thread |
| JobPrograms.CallsFit | client/job.py:1008-1029 | the steps a body queues, with the nested step_init it returns, are together smaller than the body |
| JobSpec.BodyEffect | client/job.py:616-678 | a body, with tests, groups and guarded blocks nested to any depth, ends as its program says, changes the step list by its queueing calls only, and moves the indent only by groups it loses the process in and reboots it starts |
| JobSpec.NothingLeftOpen | client/job.py:634-654 | a body that does not lose the process has closed every group and started no reboot |
| JobSpec.FramesPopped | client/job.py:1071-1078 | the ancestry a step runs under is a front of the stored one, not empty if that is not; the frame below each popped one holds the function, and the frame below the last kept does not, unless one function is left |
| JobSignals.GroupSignal | client/job.py:668-678 | run_group returns exactly if its function does; a TestError and the loss of the process pass unchanged, a JobError and any other exception come out as a TestError with status ERROR (with client/shared/error.py:214-246) |
| JobSignals.GroupLog | client/job.py:626-654 | a group writes START, then what its function writes, then the END with the code of the way it ended, or none if the process is lost; the mark stays only if the machine goes down |
| JobSignals.TestLog | client/job.py:545-591 | the entries of a test, how it returns and the mark, for each outcome: a failed test returns, only a JobError gets out |
| JobSignals.GuardSignal | client/job.py:1031-1044 | a try block that swallows Exception lets the loss of the process through and nothing else, and changes nothing of what was done |
| JobSignals.BodyStops | client/job.py:656-678 | how a body ends, by the first test or ending that is not passed and that no try block around it swallows, and by whether a group is around that statement |
| JobSignals.StepEndsExactly | client/job.py:1031-1044 | a step lets the job go on if and only if that statement is a return or a TEST_NA; it leaves the process exactly at a boot, quit, exit, crash or hanging test; otherwise it breaks the job, with a second argument exactly if a JobError outside all groups has one |
| JobSignals.StepLog | client/job.py:1031-1044 | a step adds an entry to those of its function exactly when that ends with TEST_NA |
| JobEngine.StepLayout | client/job.py:1014-1029 | where the functions that a step is defined in queue nothing, the list after it is: nested step_init, prepended steps newest first, next steps in call order, the old rest, appended steps; each new tuple with the ancestry the step ran under; and the step taken is added to those run (with lines 1061-1069, 1082-1094, 1136-1145) |
| JobSpec.FramesEffect | client/job.py:1061-1069 | building the frames of a step queues once more all that the functions it is defined in queue, and leaves the indent |
| JobEngine.StepLayoutExactly | client/job.py:1061-1069 | the list after a step is the documented one if and only if the functions that are called again for it queue nothing (with lines 1136-1145) |
| JobReplays.QueueingNeverEnds | client/job.py:1061-1069 | a job whose step_init calls next_step once and returns a step_init has three documented steps; however many the engine takes, two are left |
| JobEngine.IndexCountsFrontSteps | client/job.py:1014-1029 | the insertion index is the number of prepended and next steps so far |
| JobEngine.StepShrinks | client/job.py:1136-1145 | the documented list after a step is a smaller tree of steps than the list before |
| JobTrees.QuietStepsAfter | client/job.py:1082-1094 | if no function in the tree both queues and returns a step_init, this and the quiet ancestries last from step to step |
| JobRuns.StepTaken | client/job.py:1136-1145 | in such a tree every step leaves the documented list, and fewer steps to take |
| JobRuns.ConcludeEntries | client/job.py:1267-1302 | the entries that close a job for each way the engine ends, none for an exit; the last is END GOOD if and only if the engine has ended normally |
| JobTraces.RestartsKeepTrace | client/job.py:1122-1145 | where no function both queues and returns a step_init, steps run before and after any number of process losses are together those of the uninterrupted reference |
| JobTraces.EnoughRestarts | client/job.py:1136-1145 | where no function both queues and returns a step_init, a job ends after at most as many restarts as its step tree has nodes |
| JobTraces.EachStepAtMostOnce | client/job.py:1136-1145 | run steps and waiting steps are together exactly the steps ever queued, so none runs twice and none is lost, across reboots and crashes |
| JobTraces.NextStepsRunInPreorder | client/job.py:1014-1022 | a job that only uses next_step, and in which no function both queues and returns a step_init, runs the preorder of its step tree, however often it is interrupted |
| JobReboots.RebootsAreTransparent | client/job.py:913-916 | a job whose reboots each end their step and find the right kernel runs, in all its processes together, the very steps of the same program without reboots; post-boot steps are the only additions (with lines 1122-1145) |
| JobStatus.IndentLedger | client/job.py:64-79 | at the assertion the indent is the number of groups lost open less the resumes that reported one (with lines 1126-1132) |
| JobStatus.AssertHoldsExactly | client/job.py:1281-1300 | the assertion on the indent holds if and only if the drift of the step tree is 0: over the steps that lose the process, the groups they are inside less the marks they leave. Both are read off the program, nothing is run |
| JobStatus.VerdictOfTree | client/job.py:1262-1302 | with enough restarts the verdict on a job is what its step tree says beforehand: an exit without an assertion, or the assertion with the tree's drift as indent |
| JobStatus.GoodExactly | client/job.py:1262-1302 | a job that is over reaches the assertion with END GOOD as its last entry if and only if no step it ran, in any process, broke the job or exited |
| JobStatus.LossesAreTree | client/job.py:1122-1145 | what the processes of a finished job lose and report is what the step tree says |
| JobStatus.IndentZeroAtAssert | client/job.py:616-654 | for every tree of groups and every mix of outcomes, with any number of reboots outside groups, the indent is 0 at the assertion (with lines 683-749, 1273-1300) |
| JobStatus.PostBootClosesOnce | client/job.py:687-749 | on every path the post-boot step writes exactly one END for the reboot, as its last entry (with lines 789-795) |
| JobStatus.RebootsClosed | client/job.py:683-749 | at any time the reboots open in the log are the post-boot steps still queued, and at the assertion there are none (with client/kernel.py:77-94) |
| JobMarks.BodyMark | client/job.py:633-654 | the unexpected_reboot mark after any body is the one read off the program |
| JobMarks.MarkForgotten | client/job.py:633-654 | acts that perform no test and no group leave the mark, any others forget it |
| JobMarks.MarkedInside | client/job.py:633-654 | a mark set by acts names a group that a crash has left open |
| JobCrashes.CrashClosedExactly | client/job.py:633-654 | a crash inside the function of a group is closed by the first resume, which restores the indent of before the group, if and only if the function had performed no test and no group of its own (with lines 1126-1132) |
| JobCrashes.CrashInGroupIsClosed | client/job.py:633-654 | the entries that close such a crash (with lines 1126-1132) |
| JobCrashes.ReportedAgainExactly | client/job.py:1126-1132 | a mark that was reported is found and reported again, whatever it is, if and only if the process in between performs no test and no group and is itself lost |
| JobCrashes.NestedCrashIsNotClosed | client/job.py:653-654 | a job whose outer group loses its mark when the inner one ends meets indent 1, as its step tree says |
| JobCrashes.ClosedTwice | client/job.py:1126-1132 | a job whose crash is reported by two resumes meets indent -1, as its step tree says |
| JobIdentity.IdentityIgnoredExactly | client/job.py:772-780 | the verdict on the booted kernel never depends on the running identity if and only if the notes are neither 'src' nor 'rpm' |
| JobIdentity.WrongKernelsUnnoticed | client/job.py:751-795 | a whole job all of whose checked boots have such notes runs, logs and ends the same, over all its processes, whatever kernels it finds running |
| JobIdentity.PatchesDisableIdentityCheck | client/kernel.py:67-94 | booting with a list of patches as notes and running the post-boot step gives the same log and signal on any two machines that differ in the running identity only (with client/job.py:751-795) |
| JobIdentity.PostBootExactly | client/job.py:751-795 | a post-boot step returns if and only if, when it verifies, the mark is the expected one, the identity is the expected one for src and continues it with :: for rpm, and mounts and CPUs are the same unless a mismatch need not abort; otherwise it raises a JobError (with lines 695-749) |
| JobIdentity.PostBootLog | client/job.py:687-795 | the entries it adds in each case; nothing else of the job changes but the indent, by one |
| ClientJob.ClientJob.Start | client/job.py:1260-1265 | a new job has an empty list, no mark and one open START; the indent is that of the log |
| ClientJob.ClientJob.Continued | client/job.py:1122-1132 | a continued job finds the list and the mark as they were, and its log has one open START less exactly when there was a mark, by the two entries that report it; the ancestry and the index are forgotten |
| ClientJob.ClientJob.RecordEntry | client/job.py:64-79 | keeps the invariant that the indent is the number of STARTs in the log less the ENDs |
| ClientJob.ClientJob.NextStep | client/job.py:1014-1022 | the step stands behind those this step has put in front and before all older ones, and the index is behind it |
| ClientJob.ClientJob.NextStepAppend | client/job.py:1008-1012 | the step stands last and the insertion point is where it was |
| ClientJob.ClientJob.NextStepPrepend | client/job.py:1024-1029 | the step stands first and what is behind the insertion point is unchanged |
| ClientJob.ClientJob.StartRebootEntries | client/job.py:683-685 | START and reboot.start are added, so that one more reboot is open in the log |
| ClientJob.ClientJob.RecordFailure | client/job.py:687-693 | ABORT for the phase and END ABORT for the reboot are added, exactly one END and it is last |
| ClientJob.ClientJob.EndRebootEntries | client/job.py:741-749 | succeeds exactly if the configuration is as it was or need not be; exactly one END of the reboot is added either way, last, and it says which |
| ClientJob.ClientJob.PostBootStep | client/job.py:741-795 | the list is unchanged and exactly one END closes the reboot, last, whatever is found; it returns if and only if mark, identity and configuration are right as far as they are asked for, and raises otherwise |
| ClientJob.ClientJob.CheckConfiguration | client/job.py:695-739 | raises exactly if abort_on_mismatch is set and mounts or CPUs differ, with the END of the reboot; otherwise nothing changes |
| ClientJob.ClientJob.BootKernelNow | client/kernel.py:67-94 | the post-boot step, verifying or not as asked, is first in the list, the rest unchanged, and open reboots less queued post-boot steps are as before |
| ClientJob.ClientJob.Open | client/job.py:626-633 | one more START is open, and the mark names the group |
| ClientJob.ClientJob.Close | client/job.py:635-654 | the START is closed unless the process is being lost, the mark is gone unless the machine crashed, and no reboot is opened or closed |
| ClientJob.ClientJob.Test | client/job.py:545-591 | whatever the outcome but a crash, the log has no more open STARTs than before and there is no mark; after a crash there is one and the mark names the test |
| ClientJob.ClientJob.Execute | client/job.py:1031-1044 | a body ends as the statement at which it stops says, changes the list by its queueing calls only, opens in the log just the groups it loses the process in and the reboots it starts, and leaves the mark read off the program |
| ClientJob.ClientJob.Perform | client/job.py:1031-1044 | the same for a sequence of acts, up to the first that does not return normally |
| ClientJob.ClientJob.PerformOne | client/job.py:656-678 | the same for one act; one that returns normally leaves no START open, and a group returns if and only if its function comes to a return |
| ClientJob.ClientJob.AddInit | client/job.py:1082-1094 | a returned step_init, if there is one, stands before all steps |
| ClientJob.ClientJob.UserStep | client/job.py:1031-1044 | the list afterwards is the nested step_init, then the layout of the queueing calls around the old rest; the job goes on if and only if the function comes to a return or a TEST_NA (with lines 1082-1094) |
| ClientJob.ClientJob.BuildFrames | client/job.py:1061-1069 | functions that have returned a step_init return again, queue again all they queue, and leave no START open |
| ClientJob.ClientJob.PopFrames | client/job.py:1071-1078 | the loop ends at a front of the ancestry; the frame below each popped one holds the function and the frame below the last kept does not, unless one is left; nothing is popped for a post-boot step |
| ClientJob.ClientJob.RunFirstStep | client/job.py:1136-1145 | with quiet ancestors the list, the step run, the signal and the mark afterwards are those that the head of the list determines; with any, the frames are built first |
| ClientJob.ClientJob.StepEngine | client/job.py:1134-1145 | the loop equals the recursive run to the end of the list or the first exit; a normal end leaves no step; open STARTs less queued post-boot steps grow only by the groups the process is lost in |
| ClientJob.ClientJob.RunToVerdict | client/job.py:1262-1302 | the entries that close the job, END GOOD last if and only if the engine ended normally; the indent at the assertion is the log's open STARTs |
| ClientJob.RunAcrossRestarts | client/job.py:1122-1145 | one process after another, each with the persistent state only, gives the verdict and the log of the specification; the assertion holds exactly when the log has no open START, and exactly when the drift of the step tree is 0 (with lines 1262-1302) |
| RangeLists.RangelistToSet | client/cpuset.py:199-215 | the set of a range list, or the item that cannot be understood |
| RangeLists.ItemExactly | client/cpuset.py:204-212 | an item is understood if and only if it is a numeral or two numerals with a dash between them, which a newline may follow, and stands for that number or the range |
| RangeLists.ParseExactly | client/cpuset.py:203-215 | the result is exactly the numbers that some item stands for, or the error blames the first item that is not understood |
| RangeLists.AbbrevList | client/cpuset.py:428-441 | the loop with its sentinel prints the runs of the sorted values |
| RangeLists.RangelistRoundTrip | client/cpuset.py:199-215 | parsing what was printed gives the set of the values, for every list of naturals (with lines 428-441) |
| RangeLists.AbbrevIsMinimal | client/cpuset.py:428-441 | without duplicates the printed ranges increase, do not touch, and are as few as any ranges with that union |
| Containers.UnrelatedShareNothing | client/cpuset.py:234-253 | in an exclusive tree containers of which neither lies in the other share no node |
| Containers.NodesConserved | client/cpuset.py:234-253 | for a plain path: free nodes and the nodes of the children count to the parent's total |
| Containers.AllocatorExact | client/cpuset.py:473-492 | a positive request succeeds if and only if the nodes it needs, rounded up, are free; it takes exactly that many, the highest-numbered, and one fewer would be too little |
| Containers.GrantIsNeededExactly | client/cpuset.py:473-492 | a granted request takes no more than it needs if and only if it is for some memory or there is nothing to take |
| Containers.AvailableCanBeHad | client/cpuset.py:147-154 | any positive request up to what avail_mbytes reports succeeds |
| Containers.AvailableIsAlmostAll | client/cpuset.py:147-154 | avail_mbytes reports all that is free less at most half a node |
| Containers.RefusalExactly | client/cpuset.py:480-491 | a positive request is granted exactly if the free nodes hold it, refused as exceeding the parent exactly if all the nodes of the parent do not, and blamed on siblings in between, with what is missing |
| Containers.BlamedSiblingsHoldIt | client/cpuset.py:480-491 | for a plain path: when siblings are blamed, they hold at least the shortfall |
| Containers.CreateKeepsExclusive | client/cpuset.py:467-496 | creating a container with a visible name under a plain path keeps nodes inside the parent's and siblings apart, whatever the outcome (with lines 521-535) |
| Containers.CreateExactly | client/cpuset.py:521-535 | a creation succeeds if and only if the root is there, CPUs are left, the path is not taken, the parent is there with a readable pattern and the allocator grants the request; and which error comes first (with lines 467-496) |
| Containers.CreateEffect | client/cpuset.py:444-449 | the new container has the nodes granted and the CPUs asked for or else those of the root; no other container and no task changes; a refused creation changes nothing (with lines 521-535) |
| Globbing.PlainFinds | client/cpuset.py:238-242 | a path without pattern characters finds its own children with visible names and nothing else |
| Globbing.LiteralMatches | client/cpuset.py:238-242 | text without pattern characters stands for itself |
| Globbing.StarMatches | client/cpuset.py:238-242 | a star stands for any text |
| Globbing.OneMatches | client/cpuset.py:238-242 | a question mark stands for any one character |
| Globbing.ClassMatches | client/cpuset.py:238-242 | a class stands for one character in it, and makes the pattern unreadable exactly if one of its ranges runs backwards |
| Globbing.ListedCharacters | client/cpuset.py:238-242 | a class without ranges has the characters it lists, or with an exclamation mark all others |
| Globbing.RangeListed | client/cpuset.py:238-242 | a range has all characters from its first to its last |
| Globbing.LoneBracketMatches | client/cpuset.py:238-242 | a bracket that is never closed stands for itself |
| Globbing.ClassIsNotItself | client/cpuset.py:238-242 | the pattern a[b] matches ab and not itself |
| Containers.UnfoundSharesNodes | client/cpuset.py:238-242 | after creating a container that its parent's pattern does not find, the next equal request under the same parent gets the same nodes |
| Containers.HiddenNameSharesNodes | client/cpuset.py:238-242 | after creating a container with a hidden name, the next equal request under the same parent gets the same nodes |
| Containers.BracketsShareNodes | client/cpuset.py:238-242 | so do any two containers that are created under one called a[b] |
| Containers.CreateKeepsDisjointExactly | client/cpuset.py:234-253 | whatever the names, creating a container keeps siblings disjoint if and only if the nodes that the request is about to get belong to no child of the parent that its pattern does not find (with lines 467-496) |
| Containers.EmptyRequestStarves | client/cpuset.py:477-492 | a request for nothing whose container its parent finds takes all free nodes, and no positive request beside it succeeds afterwards |
| ContainerRuns.ReleaseKeepsTasks | client/cpuset.py:351-353 | after the release of a nest with plain names each of its living tasks is in the parent, and every other where it was |
| ContainerRuns.ReachableExclusive | client/cpuset.py:340-357 | any sequence of creations with visible names under plain paths, and of any releases, finished or not, keeps nodes exclusive (with lines 467-496) |
| ContainerManager.CgroupFs.SortedNodes | client/cpuset.py:474 | the nodes in strictly ascending order |
| ContainerManager.CgroupFs.CountNodes | client/cpuset.py:475-479 | the loop stops at the first number of nodes that meets the request, or at all of them |
| ContainerManager.CgroupFs.PickNodes | client/cpuset.py:473-492 | the allocator's loop and slice give what the allocation function says, errors included |
| ContainerManager.CgroupFs.CreateContainer | client/cpuset.py:521-535 | the new tree and the outcome are those of the specification; on success only the one container is added, with the CPUs asked for or those of the root, and on any refusal nothing changes |
| ContainerManager.CgroupFs.GetTasks | client/cpuset.py:323-331 | the tasks of a container, and none if it is gone |
| ContainerManager.CgroupFs.MoveTasks | client/cpuset.py:129-138 | the living tasks are moved, the others ignored |
| ContainerManager.CgroupFs.Rmdir | client/cpuset.py:355-357 | succeeds if and only if the container has no child and no living task, and removes it alone |
| ContainerManager.CgroupFs.ReleaseContainer | client/cpuset.py:360-365 | on every finite tree, whatever names and nodes siblings have: a release that finishes has removed exactly what it gets to, living tasks being in the nearest ancestors left; it finishes if all that it gets to has only children that its own pattern finds; in any case nothing else changes, no living task is lost, and an exclusive tree stays so |
| ContainerManager.CgroupFs.ReleaseNest | client/cpuset.py:340-357 | the recursion over what the patterns find terminates on every finite tree, and equals the specification for every order of listing |
| ContainerManager.CgroupFs.ReleaseListed | client/cpuset.py:346-347 | the loop over what has been found, up to the first that raises |
| ContainerManager.CgroupFs.ReleaseNext | client/cpuset.py:345-347 | one round of that loop leaves the effect of the rest of the list to do, or raises |
| ContainerManager.CgroupFs.RemoveNest | client/cpuset.py:351-357 | the survivors move to the parent; the container goes if it is not the super root and has no child left, found or not |
| ContainerRelease.FinishedRelease | client/cpuset.py:340-357 | a release that finishes has removed exactly what it gets to, with all that was below |
| ContainerRelease.ReleaseFinishesExactly | client/cpuset.py:340-357 | a release finishes in whatever order things are listed if and only if there is nothing to release, or the nest is not the super root and all that the release gets to has only children that its own pattern finds and a pattern that can be read |
| ContainerRelease.UnfoundRaises | client/cpuset.py:345-357 | a child that the nest's own pattern does not find makes its release raise, in every order |
| ContainerRelease.ReleaseConfined | client/cpuset.py:340-357 | finished or not, a release removes nothing but what it gets to; living tasks only move up and out of such containers, and none is lost |
| ContainerRelease.ExclusiveStays | client/cpuset.py:340-357 | finished or not, a release keeps nodes exclusive |
| ContainerRuns.PlainCleanExactly | client/cpuset.py:334-337 | among plain names a release finishes if and only if nothing inside the nest is hidden, and then gets to the whole subtree |
| ContainerRuns.PlainStaysInside | client/cpuset.py:334-337 | the release of a plain nest stays inside it |
| ContainerRuns.StarReachesOthers | client/cpuset.py:334-337 | releasing a container called c* releases the children of one called cd |
| ContainerRuns.BracketsRaise | client/cpuset.py:334-357 | releasing a container called a[b] raises if it has a child of any name |
| ModuleGraph.SubmodulesAreTransitiveUsers | client/base_utils.py:722-741 | on an acyclic graph the list has exactly the transitive users as elements |
| KernelModules.Kernel.GetSubmodules | client/base_utils.py:722-741 | the loop over the growing list terminates on every acyclic graph and returns exactly the transitive users |
| KernelModules.Kernel.Visit | client/base_utils.py:739-740 | one round of that loop adds what the visited module returns and lowers the number of visits to go |
| KernelModules.Kernel.ModprobeRemove | client/base_utils.py:769 | removes the named module if it is not in use, and otherwise nothing |
| KernelModules.Kernel.UnloadModule | client/base_utils.py:744-770 | from any state on the way: only the module and its users are removed, none referenced from outside, and nothing left uses what is gone; normal return means all of them are gone |
| KernelModules.Kernel.UnloadUsers | client/base_utils.py:758-759 | after the loop all listed users are gone, or one of them could not be unloaded and the loop has stopped |
| KernelModules.Unload | client/base_utils.py:744-770 | unload_module returns if and only if neither the module nor a transitive user has an outside reference, and then exactly these are gone; the table stays consistent even when it raises |
| ItemLists.ParserIsScanExactly | cli/topic_common.py:186-205 | the three passes agree with a one-pass parser if and only if the input has no NUL |
| ItemLists.ItemsRoundTrip | cli/topic_common.py:186-205 | escaped and joined items are parsed back, in either mode, if and only if each is non-empty, without NUL and without white space where that is stripped or separates |
| ItemLists.ParsedIsListable | cli/topic_common.py:186-205 | whatever is parsed from any input is such an item |
| ItemParse.Gather | cli/topic_common.py:213-234 | accumulates the items of several texts |
| ItemParse.GetValues | cli/topic_common.py:207-242 | exactly the items of the leftover if it is used, of the option and of the file; it fails if and only if the file cannot be opened or has no items, and says which; the leftover is passed on unless used |
| ItemParse.Atest.RunParsers | cli/topic_common.py:413-421 | the attributes set by the parsers up to the first that fails, each from the last parser that sets it, and the leftover of the first that uses it |
| ItemParse.Atest.Parse | cli/topic_common.py:405-430 | the first parser error ends the program, and with none a required attribute that is unset or empty does; otherwise what is left is returned |
| ItemParse.ArgumentsReachOneAttribute | cli/topic_common.py:207-212 | items written with escapes as arguments arrive in the attribute of the first parser that uses the leftover and in no other (with lines 413-419) |
| ItemParse.RequiredItemsGiven | cli/topic_common.py:413-425 | a required attribute is not empty if and only if its option holds an item, a file is given for it, or its parser takes the arguments and these hold one |
| Replacing.PiecesAround | cli/topic_common.py:338-344 | a pattern that overlaps no shifted copy of itself, as the tag, splits a text on both sides of an occurrence apart |
| Replacing.ReplaceJoined | cli/topic_common.py:338-344 | replacing such a pattern in a text joined by it replaces the joints and what is inside the parts |
| Failures.RestoredExactly | cli/topic_common.py:321-341 | restoring gives the message back if and only if the item is the tag or the tag is in no piece between occurrences of the item |
| Failures.TagRoundTrip | cli/topic_common.py:321-341 | restoring undoes tagging for every message without the tag, whatever the item |
| Failures.SingleItemShown | cli/topic_common.py:338-344 | a failure of one item is shown with its original message, the item behind it exactly when the message does not name it |
| Failures.ReportsRecoverable | cli/topic_common.py:312-326 | among messages without the tag, a failure was reported if and only if its item is filed under its tagged message |
| Failures.ReportShown | cli/topic_common.py:328-352 | what is shown for any reported failure gives its original message back: as a line of its own, or in a list that names the item |
| Failures.BriefExactly | cli/topic_common.py:303-305 | the message of an error is its text up to the first Traceback, or all of it, without the newlines at the end |
| Failures.Atest.Failure | cli/topic_common.py:299-326 | exits if fatal or asked to, and otherwise files the item under its tagged message beside what was there |
| KernelVersions.BitsUnique | client/kernel_versions.py:21-25 | the split is the only way to cut a text into alternating numerals and separators |
| KernelVersions.VersionEncode | client/kernel_versions.py:24-43 | the insertions and the padding loop compute the key |
| KernelVersions.PadNumerals | client/kernel_versions.py:39-41 | the loop pads the one-digit numerals and leaves the rest |
| KernelVersions.KeyOfVersion | client/kernel_versions.py:24-43 | the key of a.b.c with optional -rc and -mm numbers, spelled out |
| KernelVersions.KeysKeepOrder | client/kernel_versions.py:9-67 | keys compare as text if and only if the versions compare by age, for numbers up to 99 and candidates up to 98 |
| KernelVersions.KeysOrderExactly | client/kernel_versions.py:9-19 | these limits are exact: the keys order all versions within some limits if and only if the limits are at most 99 and 98 |
| KernelForms.KeyBehindText | client/kernel_versions.py:24-43 | a text without digits in front of a version goes into the key unchanged, and the key of the version follows |
| KernelForms.PrefixedKeepOrder | client/kernel_versions.py:27-37 | so versions behind one text are ordered by age within the same limits |
| KernelForms.KeyOfBuild | client/kernel_versions.py:24-43 | the key of a.b.c, a tag such as -smp-, and d.e with an optional _rc number, spelled out: the missing _rc99 and -rc99 are both put in |
| KernelForms.BuildsKeepOrder | client/kernel_versions.py:29-32 | keys order the builds of one variant by age, a candidate before its build |
| KernelConfigs.LimitAgain | client/kernel_versions.py:46-98 | limiting a limited version is limiting the version, as the shrinking prefix needs |
| KernelConfigs.LimitIsPrefix | client/kernel_versions.py:46-48 | a limited version is the front of the version up to the n-th cut |
| KernelConfigs.MatchesExactly | client/kernel_versions.py:88-96 | a candidate matches at a length if and only if it is the front of the version up to there with one number, or none, behind |
| KernelConfigs.FindTarget | client/kernel_versions.py:83-86 | the loop from the end stops at the target |
| KernelConfigs.NewestMatch | client/kernel_versions.py:93-96 | the last entry of the list that matches at a length, if any does |
| KernelConfigs.Search | client/kernel_versions.py:88-100 | over ever shorter prefixes, the last match on the longest prefix that has one |
| KernelConfigs.VersionChooseConfig | client/kernel_versions.py:71-100 | the version itself if known; otherwise the last by key and position among the candidates not above the target that match on the longest prefix on which any does; none if and only if nothing matches |
| KernelConfigs.NearestIsUnique | client/kernel_versions.py:88-100 | that description fits one candidate and one length only |
| KernelConfigs.NearestIsChronological | client/kernel_versions.py:54-67 | within the limits the choice is not later than the target, and no candidate matching as far lies between |
| LocalHost.SymlinkClosure | client/local_host.py:57-80 | terminates on every finite file system, circles and dangling links included, and returns exactly the existing paths reachable from the starts by links with relative texts taken from their own directories; what a link of the closure leads to is in it exactly if it exists |
| LocalHost.DirNameExactly | client/local_host.py:74 | for any path as directory, slashes and name: the directory part without its slashes, or the slashes alone |
| LocalHost.LinkToExactly | client/local_host.py:73-75 | the join of directory and link text is what the link means: an absolute text as it is, a relative one from the directory of the link |
| LocalHost.LinkTarget | client/local_host.py:73-75 | the path a link leads to, for a link in a directory, in the root directory, and without a directory part |
| LocalHost.RelativeLinkFollowed | client/local_host.py:66-80 | from a reachable link d/n with a relative text, d/text is reachable if and only if it exists |
| LocalHost.ReachableIsLeast | client/local_host.py:57-80 | a path is reachable if and only if it is in every set that holds the existing starts and follows their links |
| LocalHost.ClosureIsIdempotent | client/local_host.py:57-80 | the closure of a closure is itself |

## Left out

Concurrency of the pool:

- Updates of `numthreads` are atomic steps; the interleavings of a non-atomic `+=` are not modelled.
- Items equal to the word `die`, calls of `queue_work` after `wait`, a work function that does not return, and a `SystemExit` raised in a worker.
- Real time: a registry read that times out is a step enabled when the registry is empty.

The job:

- Steps are finite trees of acts that do not depend on what they find at run time, so that a function called again to build a frame does what it did before; `exec` of control files is left out, and which frames hold a function is represented by how far out the outermost of them is: a name is in the frame of the function that defines it and in all built inside that (where it is in no frame the code ends with a NameError).
- JobTraces.NextStepsRunInPreorder: for jobs in which no function both queues steps and returns a step_init, as all results about whole jobs; what happens otherwise is JobEngine.StepLayoutExactly.
- The top level of a control file queues nothing.
- `job.parallel`, timeouts and warnings inside tests, failures before the step engine runs, the legacy list form and the type errors of `__create_step_tuple`.
- Texts, subdirectories and optional fields of log entries; START counts one up and END one down, and the entry and the indent are persistent at once. `base_job` and `error` are not part of this model.
- A crash falls between two acts or inside a test, not between the START entry of a group and its mark, nor inside one write of the persistent state.
- The boot loader and the machine itself: what a post-boot step observes is a parameter.

The containers:

- Creation along the memcg path, which checks nothing (containers made so can be released), and `io` controls, locks and the move of the calling process into a new container.
- Files that cannot be written half way through a creation, and a living task that cannot be moved.
- Node sizes are one natural number for all nodes.
- ContainerRuns.ReachableExclusive: for visible names under plain paths, since it fails for others; what holds for these is Containers.CreateKeepsDisjointExactly.
- Names such as `.` and `..`, doubled slashes and absolute paths; a container's path is its components.
- Which of several listing orders a release meets; results are for all of them. What a release that raises has changed by then is bounded, not spelled out.

The modules:

- KernelModules.Kernel.GetSubmodules: acyclic graphs only; the recursion does not end on a cycle, and the kernel has none.
- Parsing of `lsmod` output; the table is what it says. `modprobe -r` removes the one module it is given and none that this one used.

The command line:

- Option parsing, printing and the wrapping of long lines, the order in which failures are shown, and items that are None in the report.
- A bare text where an option object is expected, and encodings other than one character per unit.

Versions and files:

- KernelVersions.KeysKeepOrder: numbers are written without leading zeros.
- KernelForms.BuildsKeepOrder: the first numbers of two builds are equal or have no more than two digits, since only one-digit numbers are padded.
- `is_released_kernel` and `is_release_candidate`, which are single pattern matches.
- Which path strings exist is a finite set given from outside, not worked out from the links.

Also left out are the parts that have no state of their own or only call out: RPC, XML, Beaker, packages, LVM, file system and boot loader commands, per-topic command classes and table printing.
