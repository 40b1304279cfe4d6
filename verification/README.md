# A verified model of Fusty

Fusty runs jobs on network devices on a schedule and keeps their output in git. This project
models the four places where its behaviour is hardest to follow and proves what each keeps.

**The git write queue** (`WriteJobs`, `WriteQueue`, `WritePool`, `WriteOrder`, `WriteProgress`,
`WriteEcho`, `WriteRepaired`, `WriteWitnesses`, `GitTree`). `GitDataStore` holds the three maps and updates them as the sections
under `writesLock` do. `WritePool` is the whole protocol as a step machine: any number of `Store`
calls blocked on the unbuffered channel, a pool of workers that are idle, awake, busy with a claimed
batch, or blocked sending while they hold the lock, and every interleaving of them. Proved for any
pool size: exclusion per key, nothing lost while cleans succeed, order and freshness, what wakes workers, progress, and
exactly when the pool can wedge. `repaired` selects a promotion that clears the parked list; the
shipped one, `repaired == false`, does not, and both are compared throughout.

**The scheduler** (`Schedules`, `Dispatch`, `Coverage`, `Batches`, `LocalScheduler`, `SchedulerRuns`). Many polls
interleave call by call over shared watermarks. Proved: firings go out in order and never twice,
which firings may be skipped, coverage by overlapping windows, and that the loop which starts its
scan over after each firing gives the first `max` elements of one pass. The classes of
`LocalScheduler` are proved to be runs of that machine.

**Configuration** (`Replacement`, `Templates`, `TemplateOrders`, `JobConfig`, `JobTemplates`, `DeviceConfig`,
`JobStages`, `CommandObjects`, `CommandSets`, `JobParts`, `JobObjects`, `JobMaps`, `JobStore`, `DeviceObjects`,
`DeviceStore`). Jobs and devices are object graphs changed in place; each object carries the value
it stands for and the set of objects it owns. Every range over a Go map takes its keys in an
arbitrary order. Proved: the closed form of a chain of layers, that building all devices leaves the
job store alone and no two devices share an object, and for which maps of template values, exactly,
the order of substitution does not matter.

**Execution on a device** (`ShellRun`, `FileFetch`, `Scrubbing`, `Executor`). The shell's output is
an arbitrary stream of chunks, and regular expressions are parameters. Proved: the verdict of the
polling loop against the documented rule, that the returned bytes are exactly the chunks read,
that fetching does not depend on map order, and what scrubbing leaves behind.

A Go `string` or `[]byte` is a Dafny `string` with one `char` per byte. Time is an integer number of
nanoseconds. Reading the clock, the order of a map range, the network, schedules and regular
expressions are inputs of the model, unconstrained unless a statement says so.

## Where the code departs from its documentation or its evident intent

- A parked list is never cleared on promotion (controller/data_store.go:232-240), and is promoted
  once for each job of the key in the batch. `ShippedConservesExactly` says exactly when writes stay
  in order, `StaleWrite` and `StaleFile` give runs in which old contents replace new ones,
  contrary to docs/data.md:54-58, and `ParkedNeverDrains` shows that the key has work for ever.
  With no further Store call its files come back to what the parked list ends with (`FilesEcho`).
- The send at controller/data_store.go:243-245 is made with the lock held. `EveryPoolWedges` gives a
  run that blocks the store for good, for every pool size; `UnlockableExactly` says when it can still
  move.
- docs/api.md:15-16 says that a request without tags gets all of them; it gets the untagged devices
  only (`VisitedExactly`).
- The default job generic is read from the jobs, not from the job generics
  (controller/job_store.go:47). A job named `default` is layered over itself
  (`DefaultLayeredTwice`).
- docs/jobs.md describes a device-level template value as taking effect; one already substituted by
  the device generic's layer wins (`StagesCompose`, `JobStagesCompose`).
- A scrubber can leave what it searches for (`ReformsExactly`), and a later one can bring it back
  (`NothingLeftExactly`). Removing, the default, does both: it is complete only for one byte
  repeated, and a later removal can bring back any text of two bytes or more (`RemovalExactly`).
- docs/devices.md:23 says that a device can override its jobs' settings. `commands`, or a command
  generic that writes anything, for a command job of the store panic on the nil generic
  (`NilGenericExactly`, `MayPanicExactly`).
- Template values are replaced in Go's map order. `OrdersAgreeExactly` says for which maps of values
  that does not matter.
- With a slash in a name, two keys share a file (`OwnFileExactly`), so serialising per key is not
  serialising per file there.

## Model

| member | source | states |
|---|---|---|
| WriteQueue.GitDataStore.Store | controller/data_store.go:161-187 | the locked section parks the job behind a running key and else makes it pending, leaving all else alone |
| WriteQueue.GitDataStore.NextJobs | controller/data_store.go:189-212 | takes every pending list, in some order of the map, marks all ids running, and leaves nothing pending |
| WriteQueue.GitDataStore.MarkJobsCompleted | controller/data_store.go:214-246 | the state is the batch finished job by job, and it asks for a token exactly when some key of the batch has a parked list |
| WriteQueue.GitDataStore.MarkListRunning | controller/data_store.go:201-208 | adds the ids of one list to those of its key, keeping the ids already there |
| WriteQueue.GitDataStore.Unmark | controller/data_store.go:221-231 | removes one id, and the key with its last id |
| WriteQueue.GitDataStore.EnqueueWaiting | controller/data_store.go:232-240 | appends the parked list to the pending one, in order, and leaves it parked |
| WriteQueue.FinishReleases | controller/data_store.go:219-231 | after the loop a key keeps exactly the running ids the batch does not carry, however ids repeat, and no empty id set is left |
| WriteQueue.FinishPromotesRepeatedly | controller/data_store.go:232-240 | as shipped, a key's pending list grows by its parked list once per batch job of the key, and the parked list stays |
| WriteQueue.FinishPromotesOnce | controller/data_store.go:232-240 | repaired, the parked list of each key of the batch moves to pending once and is gone |
| WriteQueue.ClaimTakesKey | controller/data_store.go:194-212 | whatever the map order, the claimed batch holds exactly the pending jobs of each key, in order |
| WriteQueue.ClaimMarksKey | controller/data_store.go:198-209 | a claim adds exactly the pending ids of each key to its running ones |
| WritePool.ReachableExclusive | controller/data_store.go:161-262 | in every reachable state each running key belongs to exactly one worker's batch, its id set is that batch's ids of the key, and no key is pending and running at once |
| WritePool.CompletionReleasesBatch | controller/data_store.go:214-231 | in every reachable state, completing a batch unmarks every key of it and no other |
| WriteOrder.ReachableTidy | controller/data_store.go:161-246 | repaired, or for a key never promoted: stored == committed ++ in flight ++ pending ++ parked, in order, and nothing is parked behind a key that is not running |
| WriteOrder.ReachableLoad | controller/data_store.go:232-240 | as shipped the writes of a key made or held are never fewer than those stored, and strictly more once a parked list of the key was promoted |
| WriteOrder.ShippedConservesExactly | controller/data_store.go:161-246 | as shipped that equation holds in a reachable state if and only if no completion has promoted a parked list of the key |
| WriteOrder.ReachableAccounted | controller/data_store.go:171-184 | at least once: every stored job is committed, in flight, pending, or parked behind a key that is running |
| WriteProgress.ReachableWoken | controller/data_store.go:185-195 | whenever anything is pending, a Store call is blocked sending, or a worker holds a token, or one is sending |
| WriteProgress.ReachableHaunted | controller/data_store.go:214-246 | as shipped a key with a parked list is always pending or running |
| WriteProgress.ParkedNeverDrains | controller/data_store.go:232-240 | as shipped, once a job is parked its key has work in every later state of every run |
| WriteEcho.EchoGoesOn | controller/data_store.go:198-240 | as shipped, after a completion that promotes a parked list and with no further Store call, the key is claimed only as that list, repeated, in every run |
| WriteEcho.FilesEcho | docs/data.md:54-58 | once such a batch is committed its files hold the latest of the parked list; they hold the newest write exactly when that list ends with it |
| WriteProgress.WorkCounts | controller/data_store.go:253-262 | with nothing parked, each worker step uses up exactly one unit of the work left |
| WriteProgress.StalledExactly | controller/data_store.go:214-262 | shipped or repaired, parked or not: in a reachable state no worker can step if and only if everything stored is committed and nobody waits, or the pool is wedged with its batches committed |
| WriteProgress.WorkersDrain | controller/data_store.go:253-262 | with nothing parked, every maximal sequence of worker steps has the same length and ends with all stored jobs committed in the order of their keys |
| WriteRepaired.WeightCounts | controller/data_store.go:214-262 | repaired, parked jobs or not, every worker step uses up some of a weight the state fixes |
| WriteRepaired.RepairedRests | controller/data_store.go:214-262 | so the workers take no more steps than that, and where they can take none everything is committed or the pool is wedged |
| WriteProgress.WedgedForever | controller/data_store.go:242-245 | once a worker sends under the lock with no idle worker left, only commits of batches already claimed can follow |
| WriteProgress.UnlockableExactly | controller/data_store.go:242-245 | from a reachable state the lock can become free by some continuation if and only if the pool is not wedged |
| WriteWitnesses.EveryPoolWedges | controller/data_store.go:214-246 | for every pool size, shipped or repaired, a run ends in a wedged pool |
| WriteWitnesses.StaleWrite | controller/data_store.go:232-240 | for any two writes of one key, a run stores the newer last and commits the older after it |
| GitTree.GitWorker.CommitJob | controller/data_store.go:321-343 | the files change as by one write per structure, up to the first unknown one and not at all for empty contents, and it reports that |
| GitTree.GitWorker.PushJobs | controller/data_store.go:264-283 | nothing is written when the clone cannot be cleaned; otherwise the files are those after all commits of the batch, a failing one not stopping the rest |
| GitTree.KeysArePaths | controller/data_store.go:56-62 | for plain names two jobs share a file in some structures exactly when these are one and the keys are equal |
| WriteJobs.IdsApart | controller/data_store.go:56-62 | two jobs have one id exactly when key and time agree, whatever the names hold |
| GitTree.SharedFileExactly | controller/data_store.go:327-338 | for all names, with slashes or without, whose components are not empty, `.` or `..`: two jobs share a file exactly when structure and joined names agree |
| GitTree.OwnFileExactly | controller/data_store.go:56-58 | such a job shares its file with a job of another key if and only if one of its names holds a slash |
| GitTree.WorkersWriteApart | docs/data.md:54-58 | in every reachable state no two workers hold jobs that write the same file |
| GitTree.FileHoldsLatest | controller/data_store.go:321-343 | after any sequence of commits every configured path of a key holds the latest non-empty contents for it, or what it held before |
| GitTree.CommittedWereStored | controller/data_store.go:161-246 | no job is anywhere in the system that was not stored |
| GitTree.FilesAreFresh | docs/data.md:54-58 | repaired, or before a promotion of the key: its files hold the latest of a prefix of the writes stored, and of all of them once none is left |
| GitTree.DrainedFilesAreFresh | docs/data.md:54-58 | in a drained store all configured paths of a key hold the latest contents stored for it, so both layouts agree |
| GitTree.StaleFile | docs/data.md:54-58 | as shipped, for any two different non-empty contents a run leaves the file with the older ones although all were committed |
| Schedules.TakenIsFirst | controller/scheduler.go:89-102 | nextRun takes the least firing past both the watermark and the clock if it is before the limit, and none exactly when there is none |
| Dispatch.DispatchIncreases | controller/scheduler.go:34-53 | across all polls, tags and duplicated tags the firings handed out for a device-job strictly increase, even if the clock goes back |
| Dispatch.TimestampsIncrease | controller/scheduler.go:44-48 | so do the whole-second timestamps sent to workers |
| Dispatch.BatchesAreCalls | controller/api.go:61-69 | a poll's batch is exactly what its calls took, in order |
| Coverage.SkipsOnlyPast | controller/scheduler.go:89-102 | a firing behind the watermark that was never handed out was already past at the call that passed it |
| Coverage.ReachableQuietCovered | controller/scheduler.go:89-102 | every firing strictly inside the window of a call that found nothing has been handed out |
| Coverage.ShortBatchCovers | controller/api.go:63-69 | after a batch shorter than its maximum, every firing of every device-job it scanned between the clock at its end and its limit has been handed out |
| Coverage.EveryFiringDispatchedOnce | worker/worker.go:120-131 | for overlapping untruncated polls of a worker, whatever other polls do, each firing after the first poll and before the last limit is handed out in exactly one call |
| Coverage.PollsAsRequested | controller/api.go:57-63 | each poll scans the tags of its request up to exactly the seconds asked, in nanoseconds, after the reading made at its start |
| Coverage.CadenceOverlaps | worker/worker.go:120-171 | the same from the cadence, with the start of each poll read off its request: windows of `sleep` seconds from there, a sleep of half of it rounded down, and bounded latency |
| Batches.RescanIsSinglePass | controller/api.go:61-69 | with the clock fixed, the batch is the first `max` executions of one pass over tags, device-jobs and firings |
| Batches.ReplayIsRun | controller/api.go:61-69 | a request that nothing interrupts is a run of the machine of all polls |
| Batches.PassHead | controller/scheduler.go:34-53 | the first firing of a scan is the head of the pass, and the tail is the pass from the moved watermark |
| Batches.FiringsExact | model/schedule.go:10-14 | the firings of an open interval, each once, ascending, and no other |
| Batches.PassListsExactly | controller/scheduler.go:34-53 | a single pass lists an execution if and only if its device-job is scanned and fires then, strictly between its watermark or the clock and the end of the window |
| Batches.ReplayExact | controller/api.go:61-69 | on a fixed clock, a batch shorter than its maximum holds exactly the firings due: of the device-jobs scanned, past watermark and clock, before the end of the window |
| Batches.PassAscends | controller/scheduler.go:34-53 | the executions of each device-job ascend, so none is listed twice even where tags repeat |
| LocalSchedulers.DeviceJob.TakeNext | controller/scheduler.go:89-102 | one clock reading; the answer and the new watermark are those of the machine's step |
| LocalSchedulers.LocalScheduler.AddDeviceJobToTag | controller/scheduler.go:78-80 | appends the device-job to its tag and changes no other list |
| LocalSchedulers.LocalScheduler.AddOneJob | controller/scheduler.go:56-69 | one more device-job, with its schedule and the reading made as its watermark, appended to the list of every tag of its device or of the empty one; nothing else changes |
| LocalSchedulers.LocalScheduler.AddDeviceJob | controller/scheduler.go:55-76 | each job of the device is listed once, in some order of the map; tag lists, watermarks, schedules and clock readings are those of that listing, in its order |
| LocalSchedulers.LocalScheduler.Visit | controller/scheduler.go:41-51 | one nextRun moves only the watermark of its device-job, to the firing taken |
| LocalSchedulers.LocalScheduler.ScanTag | controller/scheduler.go:42-50 | the loop over one tag drives the poll through that tag's stretch of the scan |
| LocalSchedulers.LocalScheduler.NextExecution | controller/scheduler.go:34-53 | a call drives the poll to its next firing, or to the end of the scan when there is none |
| LocalSchedulers.LocalScheduler.ApiWorkerNext | controller/api.go:61-69 | the readings of a request drive its poll to an end, and the batch is the poll's: all of it before the first reading plus the seconds asked; on a fixed clock and with lawful schedules, a batch shorter than `max` holds exactly the firings of the device-jobs visited between the later of reading and watermark and that end |
| LocalSchedulers.NewLocalScheduler | controller/scheduler.go:19-32 | each configured device-job is listed once; the tag lists hold it once under each tag of its device, in the order of the listing, and its watermark is the reading made for it |
| LocalSchedulers.TableIsBuilt | controller/scheduler.go:55-80 | such a table holds a device-job under a tag exactly when its device has the tag |
| SchedulerRuns.BuiltSchedulerSupplies | controller/scheduler.go:19-69 | a scheduler so built is a sound set-up of the machine of all polls, and on a clock that does not go back its watermarks meet what coverage asks |
| LocalSchedulers.VisitedExactly | controller/scheduler.go:34-42 | a request visits a configured device-job exactly when they list a common tag, or each side lists none or the empty one |
| Templates.ReplaceIsSubst | model/job.go:72-86 | on texts of safe literals and placeholders, one strings.Replace is the substitution of one variable |
| Templates.OrderIndependent | model/job.go:71-89 | in any map order the loop of replacements equals one simultaneous substitution and leaves placeholders without a value |
| Templates.TwoStages | model/device.go:60-69 | substituting twice is substituting once with the first stage's values winning |
| Templates.StagesCompose | model/device.go:60-69 | the same for the two loops over a text, each in any order; a repeated stage changes nothing |
| JobStages.JobStagesCompose | model/device.go:60-69 | for a whole job with a layer between the two loops: one substitution, the first stage winning where it applies, and what the second layer adds takes the merged values |
| Templates.UnsafeBreaks | model/job.go:71-89 | for every unsafe value there are a text and two keys for which two orders differ |
| Templates.CommutesExactly | model/job.go:71-89 | a value keeps the order irrelevant in every such text if and only if no placeholder can begin inside it |
| TemplateOrders.IndependentOrder | model/job.go:71-89 | where no value mixes with the placeholder of another key, the loop in any order is one simultaneous substitution, safe values or not |
| TemplateOrders.OrdersAgreeExactly | model/job.go:71-89 | for one map of values with plain keys: all orders agree on all well-formed texts if and only if no end of a value begins, or is begun by, the placeholder of another key that does not stand for itself |
| JobConfig.ChainClosedForm | model/job.go:24-69 | a chain of layers on a fresh job succeeds exactly when all agree on the kind the first fixes and no schedule is rejected, and then has the closed form: one set, commands over the generics merged so far, last schedule, all scrubbers, later values winning |
| JobConfig.NilGenericExactly | model/command_set.go:20-50 | a layer panics on the nil generic exactly when the job holds a copied command set and the layer, of no other kind, brings commands or a command generic that writes something |
| JobConfig.LayerMeans | model/job.go:24-69 | after a layer: schedule the new one if given, values `old + new`, scrubbers the old followed by the new, and the kinds of set the job then has |
| JobConfig.LayerAddsCommands | model/command_set.go:20-29 | field by field: the generic, and each command of the layer over it, with what is not given inherited and expectations appended |
| JobConfig.LayerAddsFiles | model/file_set.go:17-23 | the paths of the layer are added to those there, each with its compression |
| JobConfig.ScrubberMeans | model/job.go:141-162 | a configured scrubber is simple by default, and only regular expressions are sanitized |
| JobConfig.SanitizeOpens | model/util.go:5-15 | the pattern is kept, opened by `.*` unless it begins with `^` and closed by `.*` unless it ends with `$` |
| JobConfig.SanitizedTwice | model/util.go:5-15 | sanitizing again changes nothing exactly for a pattern anchored at both ends; any other grows each time |
| JobTemplates.ApplyGood | model/job.go:24-69 | layering well-formed texts on well-formed texts leaves them well formed |
| JobTemplates.ChainGood | model/job.go:24-69 | any chain of well-formed layers that succeeds gives a job of well-formed texts |
| JobTemplates.FilledUnique | model/job.go:71-89 | on a job of well-formed texts ApplyTemplateValues has one outcome, well formed again, over all map orders |
| JobTemplates.FilledMeans | model/job.go:71-89 | text by text: searches and replacements of the scrubbers, and the command, expectations and unexpected patterns of each command listed, are replaced in one order; nothing else changes |
| JobTemplates.OneOutcomeExactly | model/job.go:71-89 | every job of well-formed texts with these template values has one outcome over all map orders if and only if that condition holds |
| DeviceConfig.MiddleIrrelevant | model/device.go:60-69 | whether the second layer applies does not depend on which outcome the first had |
| DeviceConfig.MiddleFailsAlike | model/device.go:58-69 | nor do the errors it can end with |
| DeviceConfig.BuildFailsExactly | controller/device_store.go:34-69 | a device can be built exactly when no order of the ranges can meet an error |
| DeviceConfig.BuildsBuildable | controller/device_store.go:34-64 | a device some order builds is one that every order builds |
| DeviceConfig.BuildableBuilds | controller/device_store.go:34-64 | conversely, a device whose generic exists and whose layers apply has an outcome |
| DeviceConfig.ConfiguredUnique | model/device.go:26-71 | on well-formed texts a layer has one outcome on a device |
| DeviceConfig.DeviceDetermined | controller/device_store.go:34-64 | where all texts are well formed, every map order builds the same device, a function of its configuration, the generics and the stored jobs |
| DeviceConfig.SettingsAsConfigured | model/device.go:26-57 | host, protocol and credentials are the device's own where given, else those of its generic, which is the one named or the default; tags are both lists in turn |
| DeviceConfig.StoredJobKept | model/job.go:91-113 | a job of the store that a device names and whose layers add nothing keeps its commands, files, schedule and scrubbers up to the substitutions of the two layers |
| JobStages.StoredJobFilled | model/device.go:58-69 | where its texts are well formed it is the stored job after one substitution |
| CommandObjects.CommandSetCommand.ApplyConfig | model/command_set.go:69-86 | each field overridden only if given; `expect` is appended, sanitized, to the expected patterns and `expect_not` to the unexpected ones, never by writing to the arrays it had |
| CommandObjects.CommandSetCommand.DeepCopy | model/command_set.go:118-129 | an equal command that shares neither itself nor its arrays |
| CommandObjects.CommandSetCommand.ReplaceKey | model/job.go:75-81 | one placeholder replaced in the command and in both arrays, in place |
| CommandSets.CommandSet.ApplyConfig | model/command_set.go:20-29 | the generic is layered first and every configured command over a copy of it, with separate objects; or the nil generic is met |
| CommandSets.CommandSet.DeepCopy | model/command_set.go:44-50 | fresh, equal commands and no generic |
| CommandSets.CommandSet.ReplaceKey | model/job.go:73-82 | one placeholder replaced in every command of the list but not in the generic |
| CommandSets.CommandSet.Validate | model/command_set.go:31-42 | accepts exactly sets with commands, all of them valid |
| JobParts.FileSet.ApplyConfig | model/file_set.go:17-23 | in any map order one entry is appended for each configured path, and the entries there stay |
| JobParts.FileSet.DeepCopy | model/file_set.go:38-44 | a separate set with the same entries |
| JobParts.FileSet.Validate | model/file_set.go:25-36 | accepts exactly file sets with entries, all of them named and of a known compression |
| JobParts.EntriesValid | model/file_set.go:25-36 | this depends on the view only, not on the order of the entries |
| JobParts.StringMap.PutAll | model/job.go:65-67 | the right-biased union, in any map order |
| JobObjects.Job.ChooseSet | model/job.go:26-48 | the job gets the set its type asks for unless it has one, and an error for the other kind or an unknown one |
| JobObjects.Job.ApplyConfig | model/job.go:24-69 | the value becomes what the layer makes of it, with the same error otherwise, and all owned objects stay separate |
| JobObjects.Job.ApplyTemplateValues | model/job.go:71-89 | in place, the value becomes one of the outcomes of substituting in some order |
| JobObjects.Job.DeepCopy | model/job.go:91-113 | wholly fresh; name, schedule, scrubbers, template values, files and the list of commands equal the original's, and the generic command is gone |
| JobObjects.Job.Validate | model/job.go:115-134 | accepts exactly the jobs with a schedule, commands or files as each kind needs, patterns that compile or still hold a placeholder, and known scrubbers with a search |
| JobStores.DefaultLayeredTwice | controller/job_store.go:47-51 | a job named default without a generic lists its commands and scrubbers twice |
| JobStores.BuildJob | controller/job_store.go:35-56 | succeeds exactly when the generic exists and the layers agree, with the closed form of the chain |
| JobStores.AcceptedAsConfigured | controller/job_store.go:35-56 | for a named generic, a job named default and neither: schedule the job's own if given, else the generic's; scrubbers and files the generic's followed by its own; values `generic + own`; and its own commands, after the generic's, over both command generics |
| JobStores.NewLocalJobStore | controller/job_store.go:28-81 | every job in closed form and as its own configuration over its generic asks, sharing nothing, or errors naming exactly the jobs that cannot be accepted |
| JobStores.StoreIsScheduled | controller/job_store.go:62-68 | every stored job has a schedule, as copying one needs |
| JobStores.StoreIsGood | controller/job_store.go:28-81 | with well-formed configuration every accepted job is well formed, as the uniqueness of devices needs |
| DeviceObjects.ConfigureJobs | model/device.go:58-69 | in any map order each named job is layered and filled and the others keep their values and objects; an error is that of a named job |
| DeviceObjects.Device.ApplyConfig | model/device.go:26-71 | ends in one of the layer's outcomes with the jobs still separate, or with the error of the protocol or of a job the layer fails on; host, tags, protocol and credentials field by field |
| DeviceStores.CopyJobs | controller/device_store.go:37-46 | wholly fresh copies of the stored jobs the device names, and default jobs for the rest |
| DeviceStores.BuildDevice | controller/device_store.go:35-69 | succeeds if and only if the generic exists and both layers apply, whatever the orders, and then gives one of the outcomes of the device; else an error that building it can meet |
| DeviceStores.Validate | model/device.go:73-88 | accepts exactly devices with a host whose jobs all validate |
| DeviceStores.NewLocalDeviceStore | controller/device_store.go:28-89 | the job store is unchanged and no two devices, and no device and the store, share an object; without a panic each device is refused for a reason it can be refused for or has a valid outcome, and with none refused these are the store; it panics only at a device that may meet a nil generic, and always when some device meets nothing else |
| DeviceStores.MayPanicExactly | controller/device_store.go:37-64 | a device may panic exactly when, in the layer reached, its configuration brings commands or a command generic for a command job of the store it names |
| DeviceStores.RefusedExactly | controller/device_store.go:35-76 | where all texts are well formed, a device is refused, in any order, if and only if it has no valid outcome |
| DeviceStores.StoreDetermined | controller/device_store.go:28-89 | where all texts are well formed, whatever orders the ranges took in calls that did not panic, the errors name exactly the devices refused, so the store is built exactly when none is, and any two stores built are equal |
| ShellRuns.FirstWhereFinds | worker/executor.go:153-171 | a search finds the first pattern that matches, and none exactly when none does |
| ShellRuns.Poll | worker/executor.go:139-177 | all chunks read are returned in order, and the loop ends as the verdict says |
| ShellRuns.PolledStops | worker/executor.go:145-177 | it stops before the configured timeout only at a match, an unexpected match beats an expected one at the same poll, and without any it fails exactly when something is expected |
| ShellRuns.PolledMeetsRule | docs/jobs.md:22-39 | the verdict is success if and only if the documented rule holds, over the configured seconds |
| ShellRuns.PolledOnce | worker/executor.go:145-177 | the output fixes the number of polls and the verdict |
| ShellRuns.RunCommand | worker/executor.go:97-178 | pending output is kept, the command typed with its enter, and zero timeout, bad patterns and write errors end it as in the source; at most `timeout` chunks are read, and exactly that many before it fails without a match |
| ShellRuns.RunCommands | worker/executor.go:83-180 | whatever the result, the bytes returned are exactly the chunks read after the first, in order, and the commands ran one after another up to the first failure |
| ShellRuns.RunsAgree | worker/executor.go:83-180 | two runs over the same output agree in trace, end and result |
| ShellRuns.RunMeetsRule | docs/jobs.md:22-39 | every waiting command of a successful run met the rule, and one that failed for its output did not |
| ShellRuns.MatchedTextIsSuffix | worker/executor.go:145-171 | in any run, failed or not, the text a failure pattern or an expected one matched is a suffix of the bytes returned when the command ended |
| ShellRuns.TypedInOrder | worker/executor.go:104-115 | after j commands exactly these were typed, in order, with their enters |
| FileFetches.SortedOnce | worker/executor.go:191 | there is one sorted arrangement of the paths, whatever algorithm sorts them |
| FileFetches.FetchFile | worker/executor.go:182-230 | the output is the sections of the sorted paths, with headers exactly when there are several and a newline between them, or the first error |
| FileFetches.SucceedsExactly | worker/executor.go:198-213 | there is output exactly when every fetch and decompression succeeds |
| FileFetches.FetchedText | worker/executor.go:195-227 | the output is what was fetched at each path, decompressed where marked gzip, in order with a newline between any two, each under its header exactly when there are several |
| FileFetches.FetchedError | worker/executor.go:198-213 | an error is that of the first path that cannot be fetched or decompressed |
| FileFetches.LastEntryDecides | worker/executor.go:184-190 | of several entries for one path the last decides how it is decompressed |
| FileFetches.ListingsView | model/file_set.go:17-23 | entries appended in any map orders, layer by layer, have the same view, the closed form's |
| FileFetches.OrderIrrelevant | worker/executor.go:182-230 | the view of the entries determines the output |
| FileFetches.MapOrderIrrelevant | worker/executor.go:182-230 | for any chain of layers and any orders of their file maps the output is the same |
| Scrubbing.ScrubBytes | worker/executor.go:232-252 | all scrubbers in order, an empty simple search included, or nothing at the first pattern that does not compile |
| Scrubbing.ScrubFailsExactly | worker/executor.go:238-241 | scrubbing fails exactly when some pattern does not compile |
| Scrubbing.ScrubOneMore | worker/executor.go:234-250 | what one more scrubber of each kind does to the text so far |
| Replacement.InterleavePlain | worker/executor.go:248 | an empty search puts the replacement before, between and after the bytes of a text below 0x80 |
| Scrubbing.MeetsExactly | worker/executor.go:248 | for a byte not in x: putting in r, for any search and in any text without x, makes no x if and only if r, laid against x at any offset that touches or parts it, disagrees with it |
| Scrubbing.ReformsExactly | worker/executor.go:248 | replacing x by r leaves no x in any text if and only if x does not re-form around r |
| Scrubbing.NothingLeft | worker/executor.go:232-252 | where the later scrubbers are simple, x does not re-form around its own replacement and no later one meets it, no x is left at the end |
| Scrubbing.NothingLeftExactly | worker/executor.go:232-252 | for a scrubber of x and any list of later replacements this holds for all outputs and all later searches if and only if those conditions do |
| Scrubbing.LaterExposes | worker/executor.go:234-250 | for every later replacement that meets x, a text without x and a search for one byte with which it makes one |
| Scrubbing.RemovalExactly | docs/jobs.md:60-62 | for the default, removal: a later one meets every x of two bytes or more, and removing x itself leaves none exactly when x is one byte repeated |
| Executor.RunJob | worker/executor.go:73-81 | the file set if there is one, else the commands, else an error |
| Executor.RunExecution | worker/executor.go:31-71 | what the job returned, scrubbed; nothing without a session |
| Executor.FinishedIsScrubbed | worker/executor.go:55-67 | a job's failure is never replaced, bytes are sent only fully scrubbed, and scrubbing adds a failure exactly for a bad pattern, then with an empty file |
| Executor.ValidatedCompiles | model/job.go:165-180 | a validated job whose patterns hold no placeholder never fails on a pattern, in its commands or in scrubbing |

## Left out

- Git itself: clone, reset, pull, push, commit messages and credentials. A commit is a write to one
  map from paths to contents, every push succeeds, and the clones of the pool are one
  repository. In the machine of `WritePool` every clean succeeds too; one that fails drops the batch
  that was claimed, and its writes are lost (controller/data_store.go:266-269).
- WriteQueue.GitDataStore.Store: covers the locked section; the blocking send after it is a step of the machine in
  `WritePool`.
- GitTree.GitWorker.CommitJob: file writes, `git status`, `git add` and `git commit` always succeed, and the result
  says only whether an unknown structure stopped the writes.
- GitTree.GitWorker.PushJobs: the push at the end, whose failure the source only logs, has no effect on the clone.
- JobStores.NewLocalJobStore: one error stands for all validation messages of a job.
- DeviceStores.NewLocalDeviceStore: one error stands for all validation messages of a device; where a device may fail
  otherwise as well, the map order decides whether the call panics.
- FileFetches.FetchFile: sort.Strings is one sorting function, and any other gives the same (`SortedOnce`).
- LocalSchedulers.LocalScheduler.ApiWorkerNext: a negative `max` makes Go panic and is not modelled.
- Entries of a file set, schedules, protocol settings and credentials are values: nothing writes to
  them once they are part of a device, so what is shared there cannot be observed.
- Interleaved requests on the objects of `LocalScheduler`: its methods run alone, and interleaving is
  in the machine of `Dispatch`.
- Cron parsing and regular expressions, which are parameters, and gzip, SSH and SFTP. A read of the
  shell is a copy, where the source returns a slice of its buffer (worker/session.go:177-183).
- HTTP, authentication, TLS, configuration files, flags, logging and verbose branches.
- The limit on concurrent executions: the source counts an execution only when its timer fires
  (worker/worker.go:212-222), so docs/running.md:40 is not what it keeps. A tick skipped at the limit
  is a poll that is missing.
