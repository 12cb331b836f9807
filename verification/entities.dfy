/** The records the gateway, the strategies and the bookkeeping exchange.

    Times, sizes, speeds, rewards and energy are `real`; the source holds
    them in Java doubles (see README for what that leaves out).
 */
module Entities {

  /** A task of the dataset (TSPTask): its identity, owning job, demands and
      deadline, plus the fields the scheduler and the kernel fill in later. */
  datatype Task = Task(
    cloudletId: int,        // simulation-wide identity of the cloudlet
    jobId: int,
    taskId: int,            // identity inside its job, used by the parallel groups
    mi: real,               // length in million instructions
    ram: real,
    storage: real,          // data size, also the transfer size
    arrival: real,
    deadline: real,         // absolute deadline (getTimeDeadlineFinal)
    priority: int,          // 1 (lowest) .. 5 (highest)
    finish: real,           // -1.0 until the kernel reports completion
    startProcessing: real,
    decisionTime: real,
    vmId: int)              // -1 when dropped

  /** The sentinel finish time of a task that has not completed. */
  const NOT_FINISHED: real := -1.0

  /** What a job keeps about one of its running tasks: the cloudlet (for
      identity) and its task id (for the parallel groups). */
  datatype TaskRef = TaskRef(cloudletId: int, taskId: int)

  function RefOf(t: Task): TaskRef {
    TaskRef(t.cloudletId, t.taskId)
  }

  /** A virtual machine of the topology (CondorVM) with the attributes of its
      host and datacenter that the core reads. */
  datatype Vm = Vm(
    id: int,
    hostId: int,
    datacenterId: int,
    datacenterName: string,   // gateway datacenters have names starting with "m"
    mips: real,
    ram: real,
    size: real,
    idle: bool)               // VM_STATUS_IDLE vs VM_STATUS_BUSY

  /** One gateway decision as recorded for energy reconstruction:
      (timestamp, rescaled computation time, CPU percent). */
  datatype Sample = Sample(timestamp: real, computationTime: real, cpuPercent: real)

  /** TSPDecisionResult: the rescaled decision time and the action vector. */
  datatype DecisionResult = DecisionResult(time: real, action: seq<int>)
}
