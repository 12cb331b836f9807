# FogWorkflowSim TSP — a Dafny model of the gateway and its strategy agent

This project models the task scheduling and placement (TSP) core of
FogWorkflowSim. The model has two sides, and the wire protocol between them.

**The Java gateway**

- `TSPJob` is a job with a cap on running tasks and groups of tasks that may run together.
- `TSPJobManager` holds the job table, the executing tasks, per-episode statistics and the gateway's busy-time samples.
- `TSPEnvHelper` builds the state vectors, parses the agent's replies and computes offloading times.
- `TSPBaseStrategyAlgorithm` computes the reward.
- `TSPPlacementAlgorithm` and `TSPSchedulingAndPlacementAlgorithm` commit one decision.
- `TSPFogBroker` handles job submission, task arrival, gateway-free and cloudlet return and update events.

**The Python agent**

- `strategy_base.py`: the common state reading.
- The FIFO, random and round-robin strategies.
- The `TP_DRL` and `TSP_DRL` strategies, over the replay buffer and agent bookkeeping of `dql_tensorflow.py`.
- The socket server loop of `tsp_socket_server.py`, which answers each request and reports its own time and CPU cost.

**The protocol.** The server writes a two-byte big-endian length and then
the UTF-8 bytes of the reply, which the gateway reads back with
`DataInputStream.readUTF`. A decision reply reads `"<time>,<cpu>d<action>"`,
where the action is `-1`, a server id, or `task,server`.
`Protocol.DecisionOverTheWire` proves that the gateway decodes exactly the
figures and action the agent sent.

Each module follows one source file. Every operation is a pure function,
or a method with loop invariants. Each carries a contract relating its
result to its inputs. Lemmas connect each operation to its partner: an
inverse, an invariant it keeps, or an independent reference definition.

**Inputs that stand for the environment**

- `render` is Python's rendering of a float. It is a parameter, tied to its meaning by `Protocol.Renders`.
- `pick` is what the neural network chooses.
- `draw` is what the random generator returns.
- `cost` is the time and CPU share the server measured.
- `power` is a host's power model.
- The monitor's figures and the reply text the gateway receives are parameters too.

**Source behaviour kept as written**

- `TSPPlacementAlgorithm` never consults `TSPJob.canRunTask`. Only the scheduling path goes through the job's admission rule.
- `releaseFinishedTasks` releases a task when its finish time is `>=` the clock (`finish != -1 && finish >= time`).
- The cloudlet CloudSim returns to the broker is the same `TSPTask` object the step stored in `executing_task`. So on `CLOUDLET_RETURN` its finish time is written into the manager's executing list (`JobManager.RecordFinish`). With the `>=` test, only a release at a clock up to that finish time takes it out, such as the one the update scheduled with no delay triggers (`JobManager.ReturnReleasedAt`, `Placement.ReturnedTaskCompletes`). `TSPTask.java` is not part of this model: its finish time is taken to be the one CloudSim sets when the cloudlet completes.
- The scheduler object is created anew for every decision. So its deadline and busy flags start false on the `-1` reply and on the exception path.
- In `TSP_DRL`, the option codes the strategy offers lie in `[N, (P + 1) * N)`, while the network's action range is `[0, P * N)`. Here `N` is the number of servers and `P` the number of priorities. So a network pick can never name a top-priority task: `TspDrl.OptionCodeRange`, `TspDrl.TopPriorityNeedsFallback`.

## Model

| member | source | states |
|---|---|---|
| TspJob.NewJob | FogWorkflowSim/src/org/workflowsim/TSPJob.java:40-45 | A new job runs nothing, its running count agrees with its running list, and it keeps the cap and the parallel groups it was built with. |
| TspJob.AddTasksRunning | FogWorkflowSim/src/org/workflowsim/TSPJob.java:51-54 | Admitting a task appends its reference and raises the count by one; the cap and the groups are untouched. |
| TspJob.RemoveFirst | FogWorkflowSim/src/org/workflowsim/TSPJob.java:60-63 | LinkedList.remove(Object) on references compared by cloudlet id: one entry fewer when the cloudlet is present, the list unchanged when it is absent, every other cloudlet's reference kept and nothing added. |
| TspJob.RemoveTasksRunning | FogWorkflowSim/src/org/workflowsim/TSPJob.java:60-63 | The count drops by one whether or not the task was in the list; the list loses that cloudlet's first reference. |
| TspJob.FirstGroupWith | FogWorkflowSim/src/org/workflowsim/TSPJob.java:77-86 | The group found is the first one naming the task; None means no group names it. |
| TspJob.CanRunTask | FogWorkflowSim/src/org/workflowsim/TSPJob.java:72-89 | The loop with its early returns computes the admission rule CanRun: refused at the cap, admitted below the cap when no group names the task or nothing is running. |
| TspJob.AddAllowedKeepsCap | FogWorkflowSim/src/org/workflowsim/TSPJob.java:73-75 | Adding a task the job admits never takes the running count past the cap. |
| TspJob.AdmissionFollowsFirstGroup | FogWorkflowSim/src/org/workflowsim/TSPJob.java:77-86 | Below the cap, a task whose first group is g is admitted exactly when every running task belongs to g. |
| TspJob.AddKeepsCounted | FogWorkflowSim/src/org/workflowsim/TSPJob.java:51-54 | Adding keeps the running count equal to the length of the running list. |
| TspJob.RemoveKeepsCountedIffPresent | FogWorkflowSim/src/org/workflowsim/TSPJob.java:60-63 | Removing keeps count and list in agreement exactly when the task's cloudlet was in the list; otherwise the count drifts below the list. |
| TspJob.RemoveFirstMultiset | FogWorkflowSim/src/org/workflowsim/TSPJob.java:60-63 | When a cloudlet has a single reference, removal takes exactly that reference out of the running tasks. |
| JobManager.FreshEpisode | FogWorkflowSim/src/org/workflowsim/utils/TSPJobManager.java:62-74 | A new episode has a zero counter for each priority 1 to 5 and no violation ids, completion times, rewards or gateway samples. |
| JobManager.Init | FogWorkflowSim/src/org/workflowsim/utils/TSPJobManager.java:30-75 | After initSimulationVariables: no jobs, nothing executing, zero totals, both gateway energies -1, a zero busy time for exactly the given hosts, one fresh episode per requested episode, and the job table consistent with the executing list. |
| JobManager.SetEpisodeNumber | FogWorkflowSim/src/org/workflowsim/utils/TSPJobManager.java:83-85 | Switching episode sets the current episode number and leaves every other field, including every episode's statistics, as it was. |
| JobManager.ParseIntList | FogWorkflowSim/src/org/workflowsim/utils/TSPJobManager.java:240-242 | Succeeds with one number per token, each what Integer.parseInt reads from its token. |
| JobManager.ParseGroupList | FogWorkflowSim/src/org/workflowsim/utils/TSPJobManager.java:236-244 | Succeeds with one group per "],[" piece, each the numbers of that piece's comma split. |
| JobManager.ParseGroups | FogWorkflowSim/src/org/workflowsim/utils/TSPJobManager.java:233 | A groups text shorter than its four bracket characters makes substring throw an index error. |
| JobManager.CreateTSPJob | FogWorkflowSim/src/org/workflowsim/utils/TSPJobManager.java:232-250 | Succeeds exactly when the cap and the groups both parse; the job id then maps to a new job with that cap and those groups and nothing else changes; a groups failure is reported with its own fault. |
| JobManager.ParseIntListRoundTrip | FogWorkflowSim/src/org/workflowsim/utils/TSPJobManager.java:240-242 | The decimal texts of 32-bit ints parse back to those ints. |
| JobManager.FormatIntsRoundTrip | FogWorkflowSim/src/org/workflowsim/utils/TSPJobManager.java:237-242 | "a,b,c" written from 32-bit ints splits on ',' and parses back to [a, b, c]. |
| JobManager.ParseGroupListRoundTrip | FogWorkflowSim/src/org/workflowsim/utils/TSPJobManager.java:236-244 | Group texts of non-empty 32-bit groups parse back to the groups. |
| JobManager.ParseGroupsRoundTrip | FogWorkflowSim/src/org/workflowsim/utils/TSPJobManager.java:232-244 | "[[1,2],[3]]" written from well-formed groups parses back to exactly those groups. |
| JobManager.AddTaskRunning | FogWorkflowSim/src/org/workflowsim/utils/TSPJobManager.java:273-283 | The task joins its job's running list and the executing list, carrying its decision time and start time; no other field changes. |
| JobManager.AddKeepsConsistent | FogWorkflowSim/src/org/workflowsim/utils/TSPJobManager.java:273-283 | Adding a task that is not executing yet keeps the invariant: every executing task's job is known, each job's running list holds exactly its executing tasks, cloudlet ids are unique. |
| JobManager.Kept | FogWorkflowSim/src/org/workflowsim/utils/TSPJobManager.java:292-309 | The tasks left executing are exactly those not finished at the given time. |
| JobManager.Released | FogWorkflowSim/src/org/workflowsim/utils/TSPJobManager.java:292-304 | The tasks released are exactly those finished at the given time. |
| JobManager.Lookup | FogWorkflowSim/src/org/workflowsim/utils/TSPJobManager.java:302 | HashMap.get on an entry list: None exactly when no entry has the key. |
| JobManager.Put | FogWorkflowSim/src/org/workflowsim/utils/TSPJobManager.java:302 | HashMap.put: afterwards the key maps to the new time and every other key maps to what it did before. |
| JobManager.ReleaseOne | FogWorkflowSim/src/org/workflowsim/utils/TSPJobManager.java:294-302 | Releasing one task counts one more completion and adds its completion time (finish - arrival) and running time (finish - start); other episodes are untouched. |
| JobManager.Sweep | FogWorkflowSim/src/org/workflowsim/utils/TSPJobManager.java:292-305 | The sweep touches only the jobs, the three totals and the episode histories. |
| JobManager.SweepParts | FogWorkflowSim/src/org/workflowsim/utils/TSPJobManager.java:292-305 | The sweep's job table and current-episode completion history are the per-part sweeps over the executing list; other episodes are unchanged. |
| JobManager.SweepTotals | FogWorkflowSim/src/org/workflowsim/utils/TSPJobManager.java:297-300 | The completed count grows by the number of released tasks and the two totals by the sums of their completion and running times. |
| JobManager.ReleaseFinishedTasks | FogWorkflowSim/src/org/workflowsim/utils/TSPJobManager.java:289-310 | The executing list loses exactly the finished tasks, the totals grow by exactly their times, and only the current episode's completion history changes. |
| JobManager.ReleaseKeepsConsistent | FogWorkflowSim/src/org/workflowsim/utils/TSPJobManager.java:289-310 | Releasing keeps each job's running list equal to its executing tasks, so the admission bookkeeping stays right. |
| JobManager.SweepKeepsLookup | FogWorkflowSim/src/org/workflowsim/utils/TSPJobManager.java:302 | A task that is not swept keeps its completion-history entry. |
| JobManager.SweepRecordsHistory | FogWorkflowSim/src/org/workflowsim/utils/TSPJobManager.java:302 | Every released task is recorded with completion time finish - arrival + decision time. |
| JobManager.AvgTaskCompletionTime | FogWorkflowSim/src/org/workflowsim/utils/TSPJobManager.java:316-318 | Undefined (Java's NaN) exactly when nothing completed; otherwise the average times the count is the total completion time. |
| JobManager.AvgTaskCompletionTimeWith | FogWorkflowSim/src/org/workflowsim/utils/TSPJobManager.java:324-326 | The average that one more completion of the given time would give. |
| JobManager.AvgTaskRunningTime | FogWorkflowSim/src/org/workflowsim/utils/TSPJobManager.java:332-334 | Undefined exactly when nothing completed; otherwise the average times the count is the total running time. |
| JobManager.AvgTaskRunningTimeWith | FogWorkflowSim/src/org/workflowsim/utils/TSPJobManager.java:340-342 | The average that one more run of the given time would give. |
| JobManager.AvgWithMatchesRelease | FogWorkflowSim/src/org/workflowsim/utils/TSPJobManager.java:324-342 | The look-ahead averages equal the plain averages after that task is actually released. |
| JobManager.RegisterTaskExceedingDeadline | FogWorkflowSim/src/org/workflowsim/utils/TSPJobManager.java:440-453 | One more violation overall, one more for the task's priority in the current episode (starting at 1 if absent), its cloudlet id appended; other priorities and episodes unchanged. |
| JobManager.RegisterRaisesOnePriority | FogWorkflowSim/src/org/workflowsim/utils/TSPJobManager.java:440-477 | Registering a violation raises the all-episode count of the task's priority by one and leaves every other priority's count alone. |
| JobManager.QuantityOfExceededDeadline | FogWorkflowSim/src/org/workflowsim/utils/TSPJobManager.java:468-477 | The all-episode count of a priority is 0 when every episode's counter for it is 0 or absent and, with no negative counter, at least every single episode's counter. |
| JobManager.RegisterEachCounts | FogWorkflowSim/src/org/workflowsim/utils/TSPJobManager.java:440-477 | Over any run of registrations, each made in whichever episode was current, the all-episode count of a priority grows by exactly the number of registered tasks of that priority. |
| JobManager.InitExceededZero | FogWorkflowSim/src/org/workflowsim/utils/TSPJobManager.java:56-75 | Right after initSimulationVariables the all-episode count of every priority is 0. |
| JobManager.ExceededCountsRegistrations | FogWorkflowSim/src/org/workflowsim/utils/TSPJobManager.java:468-477 | From a fresh manager, getQuantityOfExceededDeadline(p) equals the number of violations of priority p registered since, summed over all episodes. |
| JobManager.QuantityOfExceededDeadlineIn | FogWorkflowSim/src/org/workflowsim/utils/TSPJobManager.java:479-481 | The episode's counter for the priority; a missing episode or priority is a null unboxing error. |
| JobManager.RegisterKeepsBooks | FogWorkflowSim/src/org/workflowsim/utils/TSPJobManager.java:440-453 | The global violation count stays equal to the number of recorded violation ids over all episodes. |
| JobManager.SaveReward | FogWorkflowSim/src/org/workflowsim/utils/TSPJobManager.java:177-179 | The reward joins the current episode's list; other episodes are unchanged. |
| JobManager.SaveRewardGrowsHistory | FogWorkflowSim/src/org/workflowsim/utils/TSPJobManager.java:177-187 | The merged reward history grows by one entry and its sum by the reward. |
| JobManager.RewardHistoryAvg | FogWorkflowSim/src/org/workflowsim/utils/TSPJobManager.java:193-202 | 0 when there are no episodes, undefined when no reward was saved, otherwise the mean of all saved rewards. |
| JobManager.RewardHistoryAvgIn | FogWorkflowSim/src/org/workflowsim/utils/TSPJobManager.java:204-211 | Fails for a missing episode, undefined when it saved no reward, otherwise the mean of its rewards. |
| JobManager.PutKeys | FogWorkflowSim/src/org/workflowsim/utils/TSPJobManager.java:302 | A put introduces no key but its own. |
| JobManager.PutUnique | FogWorkflowSim/src/org/workflowsim/utils/TSPJobManager.java:302 | A put keeps keys unique. |
| JobManager.PutAllLookup | FogWorkflowSim/src/org/workflowsim/utils/TSPJobManager.java:126 | putAll: a key of the added map takes the added value, any other key keeps its old value. |
| JobManager.PutAllUnique | FogWorkflowSim/src/org/workflowsim/utils/TSPJobManager.java:126 | putAll keeps keys unique. |
| JobManager.AllHistoryLookup | FogWorkflowSim/src/org/workflowsim/utils/TSPJobManager.java:122-129 | The merged completion history holds each task's time from the latest episode that recorded it. |
| JobManager.AllHistoryUnique | FogWorkflowSim/src/org/workflowsim/utils/TSPJobManager.java:122-129 | The merged completion history has each task once. |
| JobManager.TaskCompletionTimeAvg | FogWorkflowSim/src/org/workflowsim/utils/TSPJobManager.java:135-149 | 0 for an empty merged history, otherwise the mean of its times. |
| JobManager.TaskCompletionTimeAvgIn | FogWorkflowSim/src/org/workflowsim/utils/TSPJobManager.java:151-163 | Fails for a missing episode, 0 for an empty one, otherwise the mean of its times. |
| JobManager.SweepHistoryUnique | FogWorkflowSim/src/org/workflowsim/utils/TSPJobManager.java:302 | Sweeping keeps the history's keys unique. |
| JobManager.ReleaseKeepsHistoriesUnique | FogWorkflowSim/src/org/workflowsim/utils/TSPJobManager.java:289-310 | Releasing keeps every episode's completion history free of duplicate tasks. |
| JobManager.RegisterGatewayBusyTimes | FogWorkflowSim/src/org/workflowsim/utils/TSPJobManager.java:539-541 | The sample joins the current episode's samples; other episodes are unchanged. |
| JobManager.AvgGatewayBusyTime | FogWorkflowSim/src/org/workflowsim/utils/TSPJobManager.java:552-565 | 0 when there are no episodes, undefined when there is no sample, otherwise the mean computation time of all samples. |
| JobManager.AvgGatewayBusyTimeIn | FogWorkflowSim/src/org/workflowsim/utils/TSPJobManager.java:567-573 | Fails for a missing episode, undefined when it has no sample, otherwise the mean computation time of its samples. |
| JobManager.GatewayTotalEnergy | FogWorkflowSim/src/org/workflowsim/utils/TSPJobManager.java:581-600 | The loop computes busy energy = sum of time * power(cpu/100) and idle energy = (final clock - busy time) * static power, stores both, and returns their sum. |
| JobManager.BusyTotals | FogWorkflowSim/src/org/workflowsim/utils/TSPJobManager.java:587-593 | The loop over the gateway's busy-time samples accumulates exactly the busy energy, the sum of time * power(cpu/100), and the busy time, the sum of the times. |
| JobManager.EnergySplit | FogWorkflowSim/src/org/workflowsim/utils/TSPJobManager.java:581-600 | The total is the static power over the whole run plus each sample's excess over the static power. |
| JobManager.ExcessNonNegative | FogWorkflowSim/src/org/workflowsim/utils/TSPJobManager.java:581-600 | With non-negative times and a power curve at or above the static power, the excess is not negative, so the total is at least the static energy. |
| JobManager.UpdateDeviceBusyTime | FogWorkflowSim/src/org/workflowsim/utils/TSPJobManager.java:515-517 | Adds the time to a known host's busy time; an unknown host is a null unboxing error. |
| JobManager.BusyTimesAdd | FogWorkflowSim/src/org/workflowsim/utils/TSPJobManager.java:515-517 | Two updates of one host add up to one update by the sum. |
| JobManager.ParseComputationTime | FogWorkflowSim/src/org/workflowsim/utils/TSPJobManager.java:691-693 | The gateway time measured at the real MIPS, rescaled to the simulated MIPS (the result times the simulated MIPS is the input times the real MIPS). |
| JobManager.ComputationTimeScaling | FogWorkflowSim/src/org/workflowsim/utils/TSPJobManager.java:691-693 | Equal MIPS leave times unchanged, and the rescaling preserves order. |
| EnvHelper.NodeFeatures | FogWorkflowSim/src/org/workflowsim/utils/TSPEnvHelper.java:35-47 | Four numbers per node, the last one 0 exactly for an idle VM and 1 otherwise. |
| EnvHelper.StateWithTaskAndEnv | FogWorkflowSim/src/org/workflowsim/utils/TSPEnvHelper.java:20-50 | The single-task observation: six task numbers, the clock, then four numbers per server with the idle flag at offset 3. |
| EnvHelper.StateWithTasksAndEnv | FogWorkflowSim/src/org/workflowsim/utils/TSPEnvHelper.java:60-91 | The multi-task observation: six numbers per queued task in queue order, the clock, then four per server. |
| EnvHelper.SingleTaskLayout | FogWorkflowSim/src/org/workflowsim/utils/TSPEnvHelper.java:20-91 | With one queued task the two observations coincide. |
| EnvHelper.ParseIntArray | FogWorkflowSim/src/org/workflowsim/utils/TSPEnvHelper.java:98-107 | One 32-bit number per comma-separated token. |
| EnvHelper.ParseIntArrayRoundTrip | FogWorkflowSim/src/org/workflowsim/utils/TSPEnvHelper.java:98-107 | The comma-joined decimal texts of 32-bit ints parse back to them. |
| EnvHelper.ParseTrimmedInts | FogWorkflowSim/src/org/workflowsim/utils/TSPEnvHelper.java:132-138 | One number per token, each what Integer.parseInt reads from the trimmed token. |
| EnvHelper.IntTextParsesTrimmed | FogWorkflowSim/src/org/workflowsim/utils/TSPEnvHelper.java:137 | A 32-bit int's decimal text survives trim and parses back. |
| EnvHelper.ParseTrimmedIntsRoundTrip | FogWorkflowSim/src/org/workflowsim/utils/TSPEnvHelper.java:132-138 | The decimal texts of 32-bit ints parse back to those ints. |
| EnvHelper.ParseCost | FogWorkflowSim/src/org/workflowsim/utils/TSPEnvHelper.java:119-127 | The CPU figure is the second token's double; the time is the first token's double only when the gateway time counts, else 0; too few tokens is an index error. |
| EnvHelper.ZeroComputationTime | FogWorkflowSim/src/org/workflowsim/utils/TSPEnvHelper.java:124-127 | A gateway time that does not count stays 0 after rescaling. |
| EnvHelper.ParseDecision | FogWorkflowSim/src/org/workflowsim/utils/TSPEnvHelper.java:114-140 | A sample is registered exactly when the episode exists and the cost part (first 'd' piece) parses; it is stamped with the clock and holds the rescaled time and the CPU share read, even if the action then fails. The result succeeds exactly when the sample is registered and the action part (second 'd' piece) parses, and then carries the sample's time and those action numbers, all 32-bit; a reply without 'd' fails. |
| EnvHelper.ReadAction | FogWorkflowSim/src/org/workflowsim/utils/TSPEnvHelper.java:129-139 | After the cost, the sample is registered and the action is the trimmed numbers after the 'd'. |
| EnvHelper.SetUploadRateVariables | FogWorkflowSim/src/org/workflowsim/utils/TSPEnvHelper.java:147-159 | Bandwidths are given in megabits and stored in megabytes; a null cloud latency or bandwidth leaves the old value. |
| EnvHelper.SetCloudId | FogWorkflowSim/src/org/workflowsim/utils/TSPEnvHelper.java:163-167 | A null id leaves the cloud id; otherwise only the cloud id changes. |
| EnvHelper.OffloadingTime | FogWorkflowSim/src/org/workflowsim/utils/TSPEnvHelper.java:169-174 | Latency plus size over bandwidth, on the cloud link exactly for the cloud's device id. |
| EnvHelper.FogUploadInMegabits | FogWorkflowSim/src/org/workflowsim/utils/TSPEnvHelper.java:147-174 | For a fog device the offloading time is latency + 8 * size / (bandwidth in megabits). |
| EnvHelper.OffloadingMonotone | FogWorkflowSim/src/org/workflowsim/utils/TSPEnvHelper.java:169-174 | With positive bandwidths a larger task never offloads faster. |
| EnvHelper.CloudIdSelectsLink | FogWorkflowSim/src/org/workflowsim/utils/TSPEnvHelper.java:163-174 | After setCloudId(id), device id uses the cloud link. |
| JavaText.NatToTextValue | FogWorkflowSimAgent/src/tsp_socket_server.py:97 | The digits Python writes for a number denote that number. |
| JavaText.ParseInt | FogWorkflowSim/src/org/workflowsim/utils/TSPEnvHelper.java:137 | Integer.parseInt: results fit 32 bits, the text ends in a digit, the empty text is a number-format error. |
| JavaText.ParseIntRoundTrip | FogWorkflowSim/src/org/workflowsim/utils/TSPEnvHelper.java:137 | Integer.parseInt reads back any 32-bit int written in decimal. |
| JavaText.Trim | FogWorkflowSim/src/org/workflowsim/utils/TSPEnvHelper.java:137 | String.trim: the result is no longer than the text and starts and ends above ' '. |
| JavaText.TrimIdentity | FogWorkflowSim/src/org/workflowsim/utils/TSPEnvHelper.java:137 | Trimming a text without outer blanks leaves it unchanged. |
| JavaText.JavaSplit | FogWorkflowSim/src/org/workflowsim/utils/TSPEnvHelper.java:115 | String.split: a text without the separator splits into itself. |
| JavaText.SplitJoin | FogWorkflowSim/src/org/workflowsim/utils/TSPEnvHelper.java:115-132 | Splitting the join of separator-free pieces, the last non-empty, gives back the pieces (Java drops trailing empty pieces). |
| JavaText.LiteralRoundTrip | FogWorkflowSim/src/org/workflowsim/utils/TSPEnvHelper.java:122 | The decimal literal Python writes for a figure is read back as the same sign, digits and exponent. |
| JavaText.ParseDouble | FogWorkflowSim/src/org/workflowsim/utils/TSPEnvHelper.java:122-129 | Double.parseDouble after trimming: a blank text and any text holding a character no decimal literal uses are number-format errors, the only error it raises. |
| JavaText.DecimalRoundTrip | FogWorkflowSim/src/org/workflowsim/utils/TSPEnvHelper.java:122 | Double.parseDouble reads back the value of any finite decimal written as Python writes it. |
| StrategyAlgorithm.NotMobile | FogWorkflowSim/src/org/workflowsim/scheduling/TSPBaseStrategyAlgorithm.java:51-54 | The servers are exactly the VMs whose datacenter name does not start with 'm', in list order. |
| StrategyAlgorithm.NotMobileAppend | FogWorkflowSim/src/org/workflowsim/scheduling/TSPBaseStrategyAlgorithm.java:51-54 | The filter distributes over concatenation, so list order is kept. |
| StrategyAlgorithm.ThereAreServersInIdle | FogWorkflowSim/src/org/workflowsim/scheduling/TSPBaseStrategyAlgorithm.java:56-64 | True exactly when some server off the gateway is idle. |
| StrategyAlgorithm.GatewayVm | FogWorkflowSim/src/org/workflowsim/scheduling/TSPBaseStrategyAlgorithm.java:74-82 | The VM returned is on the gateway; null exactly when no VM is. |
| StrategyAlgorithm.GatewayVmIsFirst | FogWorkflowSim/src/org/workflowsim/scheduling/TSPBaseStrategyAlgorithm.java:74-82 | The gateway VM is the first VM in list order whose datacenter name starts with 'm'. |
| StrategyAlgorithm.TheGatewayIsInIdle | FogWorkflowSim/src/org/workflowsim/scheduling/TSPBaseStrategyAlgorithm.java:66-68 | Fails (null dereference) exactly when there is no gateway VM, otherwise reports its idle state. |
| StrategyAlgorithm.RewardBounds | FogWorkflowSim/src/org/workflowsim/scheduling/TSPBaseStrategyAlgorithm.java:108-114 | A missed deadline costs between 0 and priority/5; a met one within the window earns between 0 and priority/5. |
| StrategyAlgorithm.GetReward | FogWorkflowSim/src/org/workflowsim/scheduling/TSPBaseStrategyAlgorithm.java:91-121 | The reward is computed and also saved in the current episode's history, which stays valid. |
| StrategyAlgorithm.RewardIgnoresDecisionTime | FogWorkflowSim/src/org/workflowsim/scheduling/TSPBaseStrategyAlgorithm.java:91-121 | The decision time does not enter the reward. |
| StrategyAlgorithm.RewardMeaning | FogWorkflowSim/src/org/workflowsim/scheduling/TSPBaseStrategyAlgorithm.java:100-114 | A met deadline earns priority/5 times the unused share of the window; a miss costs priority/5 times the share used, capped at 1. |
| StrategyAlgorithm.RewardValue | FogWorkflowSim/src/org/workflowsim/scheduling/TSPBaseStrategyAlgorithm.java:100-114 | Priority 0 earns nothing; over a positive window and a non-negative run a missed deadline is never rewarded and a deadline met within the window is never penalised. |
| StrategyAlgorithm.GetRewardRecordsOnce | FogWorkflowSim/src/org/workflowsim/scheduling/TSPBaseStrategyAlgorithm.java:117 | Each reward computed adds exactly one entry to the reward history. |
| Placement.SetBusy | FogWorkflowSim/src/org/workflowsim/scheduling/TSPPlacementAlgorithm.java:91 | Marking a VM busy turns exactly the VMs with that id busy and changes nothing else. |
| Placement.RemoveAt | FogWorkflowSim/src/org/workflowsim/scheduling/TSPSchedulingAndPlacementAlgorithm.java:62 | ArrayList.remove(int): the element at pos leaves and the rest close up in order. |
| Placement.Notices | FogWorkflowSim/src/org/workflowsim/scheduling/TSPPlacementAlgorithm.java:102-106 | Every decision saves its reward under its id; every decision but the first also asks for a retrain of the previous id with this observation. |
| Placement.Commit | FogWorkflowSim/src/org/workflowsim/scheduling/TSPPlacementAlgorithm.java:73-108 | The deadline test and its two outcomes. A task that would miss its deadline is counted, dropped from the queue and not bound. Any other task is bound to the server, which turns busy, starts at clock + decision + offloading time and adds its run time to the host. Either way the reward is saved and the request id advances. |
| Placement.Choose | FogWorkflowSim/src/org/workflowsim/scheduling/TSPSchedulingAndPlacementAlgorithm.java:50-52 | Which list entries the answer names: the head and server action[0] for placement, task action[0] and server action[1] for scheduling; an index outside the lists is an index error. |
| Placement.Decide | FogWorkflowSim/src/org/workflowsim/scheduling/TSPPlacementAlgorithm.java:58-72 | The observation request is sent first; all servers are reported busy exactly when the action starts with -1; a completed step returns the reply's decision time; the completed-task count is untouched. |
| Placement.DecideOutcome | FogWorkflowSim/src/org/workflowsim/scheduling/TSPPlacementAlgorithm.java:58-113 | The observation is always sent first; -1 means all servers are busy and changes nothing else; a failed step neither schedules nor advances the id; a completed step advances the id and sends the reward and retrain requests. |
| Placement.DecideCommits | FogWorkflowSim/src/org/workflowsim/scheduling/TSPSchedulingAndPlacementAlgorithm.java:50-70 | A non-negative answer with valid indexes commits exactly the chosen task to the chosen server. |
| Placement.DecideDeadlineTest | FogWorkflowSim/src/org/workflowsim/scheduling/TSPSchedulingAndPlacementAlgorithm.java:54-70 | The chosen task is dropped exactly when clock + decision + offloading + run time exceeds its deadline, otherwise bound to the chosen server. |
| Placement.Reply | FogWorkflowSim/src/org/workflowsim/scheduling/TSPPlacementAlgorithm.java:29-62 | Finished tasks are released before the reply is read; the request id and the rewards are not touched. |
| Placement.PlacementStep | FogWorkflowSim/src/org/workflowsim/scheduling/TSPPlacementAlgorithm.java:25-45 | An empty cloudlet list makes get(0) throw before anything is asked; otherwise the single-task observation of the head is sent first. |
| Placement.SchedulingStep | FogWorkflowSim/src/org/workflowsim/scheduling/TSPSchedulingAndPlacementAlgorithm.java:27-39 | The multi-task observation of the whole queue is always sent first. |
| Placement.AllBusyAnswer | FogWorkflowSim/src/org/workflowsim/scheduling/TSPPlacementAlgorithm.java:64-67 | The step reports every server busy exactly when the agent answers -1, and then it changes nothing beyond the release and the sample. |
| Placement.PlacementRequests | FogWorkflowSim/src/org/workflowsim/scheduling/TSPPlacementAlgorithm.java:102-108 | A completed placement advances the id and sends the reward and retrain requests with the head's observation. |
| Placement.SchedulingRequests | FogWorkflowSim/src/org/workflowsim/scheduling/TSPSchedulingAndPlacementAlgorithm.java:72-78 | A completed scheduling step advances the id and sends the reward and retrain requests with the queue's observation. |
| Placement.PlacementDeadlineTest | FogWorkflowSim/src/org/workflowsim/scheduling/TSPPlacementAlgorithm.java:80-96 | The head is dropped, unbound, exactly when it would miss its deadline on the chosen server; otherwise it stays at the head bound to that server, which turns busy. |
| Placement.SchedulingDeadlineTest | FogWorkflowSim/src/org/workflowsim/scheduling/TSPSchedulingAndPlacementAlgorithm.java:56-70 | The chosen task leaves the queue exactly when it would miss its deadline; otherwise it is bound in place to the chosen server and the rest of the queue is unchanged. |
| Placement.CommitKeepsConsistent | FogWorkflowSim/src/org/workflowsim/scheduling/TSPPlacementAlgorithm.java:89-96 | Binding a task not yet executing keeps the job table in agreement with the executing tasks. |
| FogBroker.RunSteep | FogWorkflowSim/src/org/fog/entities/TSPFogBroker.java:271-276 | Whichever strategy is configured, a step from a consistent manager whose queued tasks are not yet running leaves the manager consistent, and it counts exactly the completions its release finds at the clock. |
| Placement.StepKeepsConsistent | FogWorkflowSim/src/org/workflowsim/scheduling/TSPSchedulingAndPlacementAlgorithm.java:27-81 | Either step keeps the job table consistent with the executing tasks when the queued tasks are not yet running. |
| FogBroker.NewBroker | FogWorkflowSim/src/org/fog/entities/TSPFogBroker.java:251-252 | A new broker has an idle gateway, servers not known to be busy, and empty lists and counters. |
| FogBroker.DecisionTime | FogWorkflowSim/src/org/fog/entities/TSPFogBroker.java:270-277 | An exception in the step leaves the decision time at 0; otherwise it is the step's time. |
| FogBroker.VmById | FogWorkflowSim/src/org/fog/entities/TSPFogBroker.java:291 | VmList.getById: a VM with that id; None exactly when there is none. |
| FogBroker.Submissions | FogWorkflowSim/src/org/fog/entities/TSPFogBroker.java:283-295 | One submission per scheduled task, to its VM's datacenter, delayed by offloading time plus decision time; a scheduled task with an unknown VM is a null dereference. |
| FogBroker.Without | FogWorkflowSim/src/org/fog/entities/TSPFogBroker.java:300 | removeAll: the queue keeps exactly the tasks not scheduled. |
| FogBroker.AfterStep | FogWorkflowSim/src/org/fog/entities/TSPFogBroker.java:278-311 | After a step the gateway is busy, the busy flag is the step's, scheduled tasks move from the queue to the submitted list and count, and the events are the submissions, the deadline notice if any, then the gateway-idle event. |
| FogBroker.DoTSPDecision | FogWorkflowSim/src/org/fog/entities/TSPFogBroker.java:257-314 | An empty queue does nothing; otherwise the step runs and its effects are applied, whatever the step reports. |
| FogBroker.StepVms | FogWorkflowSim/src/org/workflowsim/scheduling/TSPSchedulingAndPlacementAlgorithm.java:65 | A step changes the VMs at most by marking one of them busy. |
| FogBroker.JobSubmit | FogWorkflowSim/src/org/fog/entities/TSPFogBroker.java:132-139 | The task is queued and the incoming count drops; a decision follows only when the gateway is idle and some server is idle. |
| FogBroker.GatewayFree | FogWorkflowSim/src/org/fog/entities/TSPFogBroker.java:328-347 | The gateway turns idle; a decision follows unless the last step found all servers busy. |
| FogBroker.CloudletUpdated | FogWorkflowSim/src/org/fog/entities/TSPFogBroker.java:354-358 | An update triggers a decision exactly when the gateway is idle. |
| FogBroker.RemoveCloudlet | FogWorkflowSim/src/org/fog/entities/TSPFogBroker.java:379 | List.remove(Object): one fewer entry when the cloudlet is present, unchanged otherwise, nothing added. |
| FogBroker.CloudletReturned | FogWorkflowSim/src/org/fog/entities/TSPFogBroker.java:368-393 | A returned cloudlet is received, leaves the submitted list, frees the VM at its list index (an index error when out of range), has its finish time recorded in the manager's executing list, and is announced to the engine along with an update event. |
| JobManager.RecordFinish | FogWorkflowSim/src/org/workflowsim/utils/TSPJobManager.java:273-294 | The kernel's completion reaches the shared task in executing_task: that cloudlet's entries carry the returned finish time, nothing else changes, and the job table stays consistent with the executing list. |
| JobManager.ReturnReleasedAt | FogWorkflowSim/src/org/workflowsim/utils/TSPJobManager.java:289-310 | Once its finish time is recorded, an executing cloudlet is released at clock t exactly when finish >= t, so the update at the completion clock releases it and a later clock would not. |
| Placement.ReturnedTaskCompletes | FogWorkflowSim/src/org/fog/entities/TSPFogBroker.java:368-392 | A returned, executing cloudlet is counted as completed by the next step at a clock up to its finish time, such as the one its update event triggers. |
| FogBroker.DecisionKeepsCount | FogWorkflowSim/src/org/fog/entities/TSPFogBroker.java:300-302 | A decision keeps the submitted counter equal to the submitted list's length. |
| FogBroker.SubmitKeepsCount | FogWorkflowSim/src/org/fog/entities/TSPFogBroker.java:132-139 | A job arrival keeps the submitted counter equal to the submitted list's length. |
| FogBroker.FreeKeepsCount | FogWorkflowSim/src/org/fog/entities/TSPFogBroker.java:328-347 | A gateway-idle event keeps the submitted counter equal to the submitted list's length. |
| FogBroker.UpdateKeepsCount | FogWorkflowSim/src/org/fog/entities/TSPFogBroker.java:354-358 | A cloudlet update keeps the submitted counter equal to the submitted list's length. |
| FogBroker.ReturnKeepsCount | FogWorkflowSim/src/org/fog/entities/TSPFogBroker.java:368-393 | A return keeps counter and list in agreement exactly when the cloudlet was in the submitted list. |
| FogBroker.BusyGatewayWaits | FogWorkflowSim/src/org/fog/entities/TSPFogBroker.java:316-326 | While the gateway is busy, arrivals are only queued and updates do nothing. |
| FogBroker.DecisionAnnouncesIdle | FogWorkflowSim/src/org/fog/entities/TSPFogBroker.java:304-311 | Every decision ends by scheduling the gateway-idle event at the decision time, and announces deadlines exactly when the step dropped a task. |
| FogBroker.AllBusyWaits | FogWorkflowSim/src/org/fog/entities/TSPFogBroker.java:328-333 | When all servers were busy, the gateway-idle event only marks the gateway idle. |
| StrategyBase.NewBase | FogWorkflowSimAgent/src/strategies/strategy_base.py:13-20 | No devices yet, punishing reward -1 and empty value 0. |
| StrategyBase.InitAgent | FogWorkflowSimAgent/src/strategies/strategy_base.py:28-36 | Stores the device properties and their count, nothing else. |
| StrategyBase.DefaultSaveReward | FogWorkflowSimAgent/src/strategies/strategy_base.py:51-62 | The base strategy learns nothing from a reward and reports a zero cost. |
| StrategyBase.DefaultLearn | FogWorkflowSimAgent/src/strategies/strategy_base.py:64-75 | The base strategy does not learn and reports a zero cost. |
| StrategyBase.AvailableFrom | FogWorkflowSimAgent/src/strategies/strategy_base.py:77-92 | The servers from a given index on that are idle and fit the task, in ascending order; an idle server without a device entry is an index error. |
| StrategyBase.AvailableServers | FogWorkflowSimAgent/src/strategies/strategy_base.py:87-92 | Exactly the idle servers whose memory and storage fit the head task, ascending; an idle server without a device entry is an index error. |
| StrategyBase.AvailableServersTotal | FogWorkflowSimAgent/src/strategies/strategy_base.py:87-92 | With a device entry for every server the scan cannot fail. |
| StrategyBase.FirstAvailableIsLeast | FogWorkflowSimAgent/src/strategies/strategy_base.py:87-92 | The first available server is the lowest-numbered one. |
| StrategyBase.FirstTaskByPriority | FogWorkflowSimAgent/src/strategies/strategy_base.py:94-119 | Each priority maps to its first task, in queue order, that fits some idle server, and no other task is named. |
| StrategyBase.ScanKeepsFirst | FogWorkflowSimAgent/src/strategies/strategy_base.py:108-117 | The scan's invariant carries through to the end of the task list. |
| StrategyBase.FirstOfItsPriority | FogWorkflowSimAgent/src/strategies/strategy_base.py:110-117 | A fitting task whose priority is not yet mapped becomes that priority's entry. |
| StrategyBase.NotFirstOfItsPriority | FogWorkflowSimAgent/src/strategies/strategy_base.py:110-117 | A task whose priority is mapped, or that fits no idle server, leaves the map alone. |
| StrategyBase.FirstTaskInRange | FogWorkflowSimAgent/src/strategies/strategy_base.py:94-119 | A mapped task lies inside the task part and carries that priority. |
| Selectors.Busy | FogWorkflowSimAgent/src/strategies/tp_fifo.py:37-38 | The answer for no available server: -1 with a zero cost. |
| Selectors.FifoPredict | FogWorkflowSimAgent/src/strategies/tp_fifo.py:23-45 | -1 exactly when nothing is available; otherwise the lowest-numbered available server. |
| Selectors.FifoIgnoresActionId | FogWorkflowSimAgent/src/strategies/tp_fifo.py:23 | The FIFO choice does not depend on the action id. |
| Selectors.RandomPredict | FogWorkflowSimAgent/src/strategies/tp_random.py:25-47 | -1 exactly when nothing is available; otherwise an available server. |
| Selectors.RandomReachesEveryServer | FogWorkflowSimAgent/src/strategies/tp_random.py:44 | Every available server is the answer for some draw. |
| Selectors.RandomDraw | FogWorkflowSimAgent/src/strategies/tp_random.py:44 | The answer is the available server the draw indexes. |
| Selectors.InitRoundRobin | FogWorkflowSimAgent/src/strategies/tp_round_robin.py:29-37 | Starts with no server selected yet (-1). |
| Selectors.NextEpisode | FogWorkflowSimAgent/src/strategies/tp_round_robin.py:39-43 | A new episode forgets the last selected server. |
| Selectors.FirstAbove | FogWorkflowSimAgent/src/strategies/tp_round_robin.py:62 | The server found is available and above the last one; None exactly when no available server is above it. |
| Selectors.FirstAboveIsLeast | FogWorkflowSimAgent/src/strategies/tp_round_robin.py:62 | The server found is the smallest available one above the last. |
| Selectors.NextServer | FogWorkflowSimAgent/src/strategies/tp_round_robin.py:62-66 | The next server is always an available one. |
| Selectors.RoundRobinPredict | FogWorkflowSimAgent/src/strategies/tp_round_robin.py:45-69 | -1 exactly when nothing is available; otherwise an available server, remembered as the last selected. |
| Selectors.RoundRobinChoice | FogWorkflowSimAgent/src/strategies/tp_round_robin.py:62-66 | Picks the smallest available server above the last one, wrapping to the smallest available server. |
| Selectors.RoundRobinCycles | FogWorkflowSimAgent/src/strategies/tp_round_robin.py:62-66 | Over a fixed availability the choice visits the available servers in ascending order and wraps around. |
| DqlAgent.NewBuffer | FogWorkflowSimAgent/src/strategies/drl_agents/dql_tensorflow.py:21-29 | A new buffer is empty and has the given size. |
| DqlAgent.Add | FogWorkflowSimAgent/src/strategies/drl_agents/dql_tensorflow.py:31-43 | The experience is appended and, past the size, the oldest one is dropped. |
| DqlAgent.Clear | FogWorkflowSimAgent/src/strategies/drl_agents/dql_tensorflow.py:66-70 | Clearing empties the buffer and keeps its size. |
| DqlAgent.AddBounded | FogWorkflowSimAgent/src/strategies/drl_agents/dql_tensorflow.py:41-43 | A buffer of positive size never holds more than its size. |
| DqlAgent.KeepsLatest | FogWorkflowSimAgent/src/strategies/drl_agents/dql_tensorflow.py:41-43 | After any run of additions to a new buffer, it holds exactly the latest min(n, size) experiences in arrival order. |
| DqlAgent.NewAgent | FogWorkflowSimAgent/src/strategies/drl_agents/dql_tensorflow.py:119-151 | A new agent has the given dimensions, batch size and exploration rate, and an empty buffer of 256. |
| DqlAgent.ResetEnvironment | FogWorkflowSimAgent/src/strategies/drl_agents/dql_tensorflow.py:153-161 | Empties the buffer and sets the exploration rate; dimensions are kept. |
| DqlAgent.StoreTransition | FogWorkflowSimAgent/src/strategies/drl_agents/dql_tensorflow.py:170-180 | The transition becomes the newest experience and the older ones are a suffix of the previous buffer. |
| DqlAgent.Learn | FogWorkflowSimAgent/src/strategies/drl_agents/dql_tensorflow.py:214-219 | Training happens exactly when the buffer holds at least a batch. |
| DrlHistory.NewLearner | FogWorkflowSimAgent/src/strategies/tsp_drl.py:49-58 | An empty decision history, step count 0, no rewards, and an agent with exploration 0 and batch 64. |
| DrlHistory.NextEpisode | FogWorkflowSimAgent/src/strategies/tsp_drl.py:60-68 | A new episode clears the history, the step count, the rewards and the replay buffer. |
| DrlHistory.Record | FogWorkflowSimAgent/src/strategies/tsp_drl.py:92-99 | While training, the decision is recorded under its id, already carrying the punishing reward when the pick was not an option; nothing else changes, and nothing at all when not training. |
| DrlHistory.SaveReward | FogWorkflowSimAgent/src/strategies/tsp_drl.py:103-120 | While training, the first reward reported for a recorded decision is kept and logged, later ones are ignored, and an unknown id is a key error; when not training nothing changes and the cost is zero. |
| DrlHistory.FirstRewardWins | FogWorkflowSimAgent/src/strategies/tsp_drl.py:116-118 | Once a decision has a reward, saving another changes nothing. |
| DrlHistory.Learn | FogWorkflowSimAgent/src/strategies/tsp_drl.py:133-146 | While training, the recorded decision becomes a replay experience with the new observation, leaves the history, and the step count grows; the target network is refreshed every period steps; an unknown id is a key error. |
| DrlHistory.RecordRewardLearn | FogWorkflowSimAgent/src/strategies/tsp_drl.py:98-146 | Record, reward, learn: the agent learns the experience with the reward reported, and the history ends as it started. |
| TspDrl.Init | FogWorkflowSimAgent/src/strategies/tsp_drl.py:39-58 | The network reads 6P + 1 + 4N numbers and scores P * N actions, for P priorities and N devices. |
| TspDrl.GoToNextEpisode | FogWorkflowSimAgent/src/strategies/tsp_drl.py:60-68 | The learning fields start over; devices and priorities are kept. |
| TspDrl.ParseStateToRl | FogWorkflowSimAgent/src/strategies/tsp_drl.py:148-170 | One six-number slot per priority followed by the clock and the servers, of the width the network reads. |
| TspDrl.ParsedSlot | FogWorkflowSimAgent/src/strategies/tsp_drl.py:161-168 | Slot p holds the first fitting task of priority p + 1, or six empty values. |
| TspDrl.ParsedTail | FogWorkflowSimAgent/src/strategies/tsp_drl.py:170 | After the slots come the last 4N + 1 numbers of the observation. |
| TspDrl.SlotContents | FogWorkflowSimAgent/src/strategies/tsp_drl.py:161-168 | Slot p is non-empty exactly when priority p + 1 has a fitting task, and then it holds that task's priority, memory and storage. |
| TspDrl.ParsedNumbered | FogWorkflowSimAgent/src/strategies/tsp_drl.py:161-168 | Every non-empty slot carries its own priority p + 1. |
| TspDrl.ParsedServerFlag | FogWorkflowSimAgent/src/strategies/tsp_drl.py:170 | A server's idle flag in the parsed observation is its flag in the original one. |
| TspDrl.ServerOptions | FogWorkflowSimAgent/src/strategies/tsp_drl.py:189-193 | The codes of one slot's fitting idle servers. |
| TspDrl.SlotOptions | FogWorkflowSimAgent/src/strategies/tsp_drl.py:183-193 | The codes of every non-empty slot's fitting idle servers. |
| TspDrl.Options | FogWorkflowSimAgent/src/strategies/tsp_drl.py:172-194 | A code is an option exactly when it is priority * N + server for a non-empty slot and an idle server that fits its task. |
| TspDrl.EncodeDecode | FogWorkflowSimAgent/src/strategies/tsp_drl.py:96 | action // N and action % N undo priority * N + server. |
| TspDrl.DecodeSlotCode | FogWorkflowSimAgent/src/strategies/tsp_drl.py:96 | The code of slot t and server s decodes to priority t + 1 and server s. |
| TspDrl.OptionDecodesRl | FogWorkflowSimAgent/src/strategies/tsp_drl.py:96 | Every option decodes to a priority between 1 and P and a server below N that form an option. |
| TspDrl.OptionCodeRange | FogWorkflowSimAgent/src/strategies/tsp_drl.py:193 | Option codes lie in [N, (P + 1) * N), shifted by N from the network's action range [0, P * N). |
| TspDrl.TaskGivesOption | FogWorkflowSimAgent/src/strategies/tsp_drl.py:183-193 | A priority with a fitting task has at least one option. |
| TspDrl.OptionsExist | FogWorkflowSimAgent/src/strategies/tsp_drl.py:84-85 | There is an option exactly when some priority between 1 and P has a fitting task. |
| TspDrl.Choose | FogWorkflowSimAgent/src/strategies/tsp_drl.py:92-95 | The agent's pick when it is an option, otherwise one of the options. |
| TspDrl.DecodeFacts | FogWorkflowSimAgent/src/strategies/tsp_drl.py:96 | An option names the first fitting task of its priority and an idle server that fits it. |
| TspDrl.DecodeOption | FogWorkflowSimAgent/src/strategies/tsp_drl.py:96 | The task and server an option stands for. |
| TspDrl.Predict | FogWorkflowSimAgent/src/strategies/tsp_drl.py:70-101 | -1 exactly when there is no option; otherwise a task and server standing for the pick or the random option, and the decision recorded with the parsed observation. |
| TspDrl.TopPriorityNeedsFallback | FogWorkflowSimAgent/src/strategies/tsp_drl.py:52-53 | A pick inside the network's action range never names a top-priority task; answering one always goes through the random fallback and is punished. |
| TspDrl.SaveReward | FogWorkflowSimAgent/src/strategies/tsp_drl.py:103-120 | The shared bookkeeping; an unknown id while training is a key error. |
| TspDrl.Learn | FogWorkflowSimAgent/src/strategies/tsp_drl.py:122-146 | The recorded decision is learned with the parsed new observation; the target network is refreshed every 100 steps. |
| TspDrl.ParsedWidth | FogWorkflowSimAgent/src/strategies/tsp_drl.py:52 | The parsed observation has exactly the width the network reads. |
| TpDrl.Init | FogWorkflowSimAgent/src/strategies/tp_drl.py:40-59 | The network reads 7 + 4N numbers and scores N actions; the punishment counter starts at 0. |
| TpDrl.GoToNextEpisode | FogWorkflowSimAgent/src/strategies/tp_drl.py:61-69 | The learning fields start over; the punishment counter is kept. |
| TpDrl.Penalized | FogWorkflowSimAgent/src/strategies/tp_drl.py:97-100 | After a punished pick the counter is one more, or 0 at action ids that are multiples of 500. |
| TpDrl.Predict | FogWorkflowSimAgent/src/strategies/tp_drl.py:73-108 | -1 exactly when nothing is available; otherwise an available server, the pick itself when available, with the decision recorded and the counter moved only for a punished pick while training. |
| TpDrl.PredictPlaces | FogWorkflowSimAgent/src/strategies/tp_drl.py:84-108 | Any answer other than -1 is an idle server that fits the task. |
| TpDrl.FallbackIsRandom | FogWorkflowSimAgent/src/strategies/tp_drl.py:102-103 | An unavailable pick is replaced by the random strategy's answer for the same draw. |
| TpDrl.SaveReward | FogWorkflowSimAgent/src/strategies/tp_drl.py:110-127 | The shared bookkeeping; an unknown id while training is a key error. |
| TpDrl.Learn | FogWorkflowSimAgent/src/strategies/tp_drl.py:129-152 | The recorded decision is learned with the raw new observation; the target network is refreshed every 50 steps. |
| TpDrl.PunishmentSticks | FogWorkflowSimAgent/src/strategies/tp_drl.py:94-125 | A punished pick is learned with the punishing reward, whatever reward the simulator reports later. |
| TpDrl.ValidPickLearnsReward | FogWorkflowSimAgent/src/strategies/tp_drl.py:105-152 | An available pick is learned with the reward the simulator reports. |
| Framing.EncodeChar | FogWorkflowSimAgent/src/tsp_socket_server.py:126 | UTF-8: one byte exactly for ASCII, at most three in the Basic Multilingual Plane, four above it. |
| Framing.Units | FogWorkflowSim/src/org/workflowsim/utils/TSPSocketRequest.java:63 | The Java string for a Basic Multilingual Plane text: one code unit per character. |
| Framing.UnitsInjective | FogWorkflowSim/src/org/workflowsim/utils/TSPSocketRequest.java:63 | Different texts give different Java strings. |
| Framing.Frame | FogWorkflowSimAgent/src/tsp_socket_server.py:126-128 | A two-byte big-endian length, then the UTF-8 bytes; 65536 bytes or more overflow to_bytes and nothing is sent. |
| Framing.Decode | FogWorkflowSim/src/org/workflowsim/utils/TSPSocketRequest.java:63 | readUTF's modified UTF-8 decoding: every failure is malformed input, and there are never more code units than bytes. |
| Framing.ReadUtf | FogWorkflowSim/src/org/workflowsim/utils/TSPSocketRequest.java:63 | readUTF reads exactly the announced number of bytes and leaves the rest of the stream unread. |
| Framing.DecodeChar | FogWorkflowSim/src/org/workflowsim/utils/TSPSocketRequest.java:63 | One character's UTF-8 bytes decode back to its code unit. |
| Framing.DecodeUtf8 | FogWorkflowSim/src/org/workflowsim/utils/TSPSocketRequest.java:63 | The UTF-8 of a Basic Multilingual Plane text decodes to its code units. |
| Framing.FrameRoundTrip | FogWorkflowSimAgent/src/tsp_socket_server.py:126-128 | What the gateway reads from a framed reply is the reply itself, and what follows the frame stays unread. |
| Framing.SupplementaryRejected | FogWorkflowSimAgent/src/tsp_socket_server.py:126 | A character outside the Basic Multilingual Plane makes the gateway's read fail. |
| Framing.AsciiLength | FogWorkflowSimAgent/src/tsp_socket_server.py:126 | ASCII text takes one byte per character. |
| SocketServer.AverageCpu | FogWorkflowSimAgent/src/tsp_socket_server.py:86-92 | The CPU figure sent is the time-weighted average of the pending CPU shares, over 1 when no time was measured. |
| SocketServer.WeightedBounds | FogWorkflowSimAgent/src/tsp_socket_server.py:89-92 | Weights within [0, hi] and non-negative times give a weighted sum within [0, hi * total time]. |
| SocketServer.AverageCpuWithin | FogWorkflowSimAgent/src/tsp_socket_server.py:86-92 | The figure sent lies within the range of the measured CPU shares, and is 0 when no time was measured. |
| SocketServer.Step | FogWorkflowSimAgent/src/tsp_socket_server.py:66-124 | Setup forgets the pending costs and returns the name; a decision reports the totals of everything pending, itself included, then forgets them; save_reward and retrain add their cost; the remaining actions reply "Success" and an unknown one "None". |
| SocketServer.ActionInts | FogWorkflowSimAgent/src/tsp_socket_server.py:97 | The numbers after the 'd': -1 exactly for no server, else the server or the task and server. |
| SocketServer.ReplyText | FogWorkflowSimAgent/src/tsp_socket_server.py:97 | "<time>,<cpu>d<action>" for a decision, the word otherwise. |
| SocketServer.Serve | FogWorkflowSimAgent/src/tsp_socket_server.py:46-132 | The session answers at most one frame per message and only handled messages; the empty message, an exception or an overlong reply ends it. |
| SocketServer.ServeStops | FogWorkflowSimAgent/src/tsp_socket_server.py:60-61 | Nothing is answered from the first unhandled message on. |
| SocketServer.ServeAnswersEach | FogWorkflowSimAgent/src/tsp_socket_server.py:46-128 | While every reply fits its frame, each handled message is answered in order with its framed reply. |
| SocketServer.CostsPileUp | FogWorkflowSimAgent/src/tsp_socket_server.py:99-115 | Between decisions the costs of save_reward and retrain pile up in arrival order, so the next decision covers them. |
| SocketServer.DecisionAfterSetup | FogWorkflowSimAgent/src/tsp_socket_server.py:69-97 | Right after setup, a decision reports exactly its own cost. |
| Protocol.ReplySplits | FogWorkflowSim/src/org/workflowsim/utils/TSPEnvHelper.java:115-119 | The reply splits on 'd' into the cost part and the action part, and the cost part on ',' into time and CPU. |
| Protocol.CostSplits | FogWorkflowSim/src/org/workflowsim/utils/TSPEnvHelper.java:119 | The cost part splits on ',' into the two figures and contains no 'd'. |
| Protocol.CostRoundTrip | FogWorkflowSim/src/org/workflowsim/utils/TSPEnvHelper.java:119-127 | The cost part reads back as the figures written, the time only when the gateway time counts. |
| Protocol.ActionText | FogWorkflowSim/src/org/workflowsim/utils/TSPEnvHelper.java:132 | The action part splits back into its numbers and contains no 'd'. |
| Protocol.DecisionRoundTrip | FogWorkflowSim/src/org/workflowsim/utils/TSPEnvHelper.java:114-140 | The gateway decodes a decision reply into exactly the time, CPU share and action the agent sent, and registers that sample at the clock. |
| Protocol.ReplyAscii | FogWorkflowSimAgent/src/tsp_socket_server.py:97 | A decision reply is plain ASCII. |
| Protocol.DecisionOverTheWire | FogWorkflowSim/src/org/workflowsim/utils/TSPSocketRequest.java:63 | What the gateway reads off the wire for a decision reply is its text, and it parses into the figures and the action sent. |

## Left out

- Neural networks: `choose_action`, fitting, sampling of minibatches and epsilon decay. They are out of scope, so the network's choice is the `pick` parameter and a learning step keeps only its bookkeeping (the step counter, the replay buffer and the target-update schedule).
- IEEE doubles: reals stand for Java and Python doubles, with no rounding, infinities or NaN.
- Division by zero: division by a zero bandwidth, MIPS rating or deadline window would yield an infinity in Java. The members that divide require a non-zero divisor instead: `EnvHelper.OffloadingTime`, `JobManager.ParseComputationTime`, `EnvHelper.ParseDecision`, `Placement.Commit`, `StrategyAlgorithm.GetReward`, and `Placement.Ready` and `FogBroker.BrokerReady` for the step operations.
- Episode index: the step operations require the current episode to index an existing episode (`ValidEpisode`). The per-episode statistics are `HashMap`s keyed by episode, so for an episode never created `get` returns null and Java would throw a `NullPointerException` when adding to it. The gateway always sets the episode within the range it created.
- Null job: the step operations require every executing task's job to be in the job table. `TSPJobManager` would throw a `NullPointerException` otherwise, and every task is submitted with its job.
- Float rendering: Python's `str(float)` algorithm (shortest round-trip digits) is not modelled. It is the `render` parameter, and its output is assumed to be a finite decimal literal.
- Python `0`: Python prints an integer `0` cost differently from a float `0.0`. This is not distinguished; both are finite decimals.
- Strategy dispatch: the JSON decoding of requests and the dispatch in `tsp_manager.py` are not part of this model. A request is an already-decoded `Handled` value.
- Socket `recv` buffering and partial reads are left out. One message is one request.
- The gateway's retry loop in `TSPSocketClient` is not part of this model.
- Read errors: an end of stream and a malformed UTF-8 sequence in `readUTF` are both reported as `MalformedInput`.
- VM map: the broker's `VmsToDatacentersMap` is assumed to map every VM to its datacenter. The model reads the datacenter id from the VM.
- Energy reporting: `getEnergyConsumption` and the per-host energy history getters are reporting helpers that no modelled operation calls. They are left out.
- Job queries: `getNextAvailableJobs`, `getAvailableJobs`, `getFutureJobsTime`, `getNextFinishTime` and `getTaskEpisode` are queries that no modelled operation calls. They are left out.
- Printing: the print and result-writing functions, and `plot_simulation_results.py`, are not modelled.
- Setup: `TSPApp`, `TSPWorkflowParser` and `TSPWorkflowPlanner` build the simulation and are not part of this model.
- Other broker events: `processVmCreate` and the other CloudSim events of the broker that are not TSP events are left out.
- Randomness: it appears only as the `draw` and `pick` parameters.
- JavaText.ParseInt: accepts ASCII digits only. `Integer.parseInt` also accepts the other Unicode decimal digits (`Character.digit`); the agent writes ASCII only.
- JavaText.ParseDouble: accepts finite decimal literals only. `Double.parseDouble` also accepts a trailing `f`/`F`/`d`/`D`, `Infinity`, `NaN` and hexadecimal literals; the agent never writes these.
- Framing.FrameRoundTrip: stated for texts of Basic Multilingual Plane characters only. Surrogate pairs are left out.
- Framing.Units: requires a BMP text for the same reason.
- SocketServer.AverageCpuWithin: requires the CPU shares within `[0, hi]` with `hi >= 0` and non-negative times, as the server measures them.
- TspDrl.Choose: requires a non-empty option list. The strategy only chooses after finding at least one option.
- Selectors.NextServer: requires a non-empty server list, as the round-robin strategy is only asked when servers exist.
