/** TSPJob: the co-scheduling constraint of one job.

    A job has a concurrency cap, a list of groups of task ids that may run
    side by side, and the list of its tasks currently running. A task may
    start when the cap is not reached and, if some group mentions it, every
    running task belongs to the FIRST such group.
 */
module TspJob {
  import opened Wrappers
  import opened Entities

  datatype Job = Job(
    maxParallel: int,            // max_parallel_executable_tasks
    groups: seq<seq<int>>,       // tasks_which_can_run_in_parallel
    running: seq<TaskRef>,       // tasks_running
    runningQuantity: int)        // tasks_running_quantity

  /** The running counter agrees with the running list. */
  predicate Counted(j: Job) {
    j.runningQuantity == |j.running|
  }

  /** A new job: nothing running. */
  function NewJob(maxParallel: int, groups: seq<seq<int>>): (j: Job)
    ensures j.running == [] && j.runningQuantity == 0
    ensures j.maxParallel == maxParallel && j.groups == groups
    ensures Counted(j)
  {
    Job(maxParallel, groups, [], 0)
  }

  /** addTasksRunning: append the task and count it. */
  function AddTasksRunning(j: Job, r: TaskRef): (j': Job)
    ensures j'.running == j.running + [r]
    ensures j'.runningQuantity == j.runningQuantity + 1
    ensures j'.maxParallel == j.maxParallel && j'.groups == j.groups
  {
    j.(running := j.running + [r], runningQuantity := j.runningQuantity + 1)
  }

  /** LinkedList.remove(Object): drop the first entry for the same cloudlet,
      if there is one. */
  function RemoveFirst(s: seq<TaskRef>, cloudletId: int): (r: seq<TaskRef>)
    ensures (exists k :: 0 <= k < |s| && s[k].cloudletId == cloudletId) ==> |r| == |s| - 1
    ensures (forall k :: 0 <= k < |s| ==> s[k].cloudletId != cloudletId) ==> r == s
    ensures forall x :: x in s && x.cloudletId != cloudletId ==> x in r
    ensures forall x :: x in r ==> x in s
  {
    if |s| == 0 then []
    else if s[0].cloudletId == cloudletId then s[1..]
    else [s[0]] + RemoveFirst(s[1..], cloudletId)
  }

  /** removeTasksRunning: remove the task's first entry, and decrement the
      counter whether or not the task was there. */
  function RemoveTasksRunning(j: Job, r: TaskRef): (j': Job)
    ensures j'.running == RemoveFirst(j.running, r.cloudletId)
    ensures j'.runningQuantity == j.runningQuantity - 1
    ensures j'.maxParallel == j.maxParallel && j'.groups == j.groups
  {
    j.(running := RemoveFirst(j.running, r.cloudletId), runningQuantity := j.runningQuantity - 1)
  }

  /** Index of the first group that mentions `id`. */
  function FirstGroupWith(groups: seq<seq<int>>, id: int, from: nat): (r: Option<nat>)
    requires from <= |groups|
    ensures r.Some? ==> from <= r.value < |groups| && id in groups[r.value]
    ensures r.Some? ==> forall k :: from <= k < r.value ==> id !in groups[k]
    ensures r.None? ==> forall k :: from <= k < |groups| ==> id !in groups[k]
    decreases |groups| - from
  {
    if from == |groups| then None
    else if id in groups[from] then Some(from)
    else FirstGroupWith(groups, id, from + 1)
  }

  /** The reference meaning of "task `id` may start now". */
  predicate CanRun(j: Job, id: int) {
    && j.runningQuantity < j.maxParallel
    && match FirstGroupWith(j.groups, id, 0)
       case None => true
       case Some(g) => forall k :: 0 <= k < |j.running| ==> j.running[k].taskId in j.groups[g]
  }

  /** canRunTask, following the source's loops and early returns. */
  method CanRunTask(j: Job, id: int) returns (b: bool)
    ensures b == CanRun(j, id)
    ensures j.runningQuantity >= j.maxParallel ==> !b
    ensures j.runningQuantity < j.maxParallel && (forall k :: 0 <= k < |j.groups| ==> id !in j.groups[k]) ==> b
    ensures j.runningQuantity < j.maxParallel && j.running == [] ==> b
  {
    if j.runningQuantity >= j.maxParallel {
      return false;
    }
    var g := 0;
    while g < |j.groups|
      invariant 0 <= g <= |j.groups|
      invariant forall k :: 0 <= k < g ==> id !in j.groups[k]
    {
      if id in j.groups[g] {
        var i := 0;
        while i < |j.running|
          invariant 0 <= i <= |j.running|
          invariant forall k :: 0 <= k < i ==> j.running[k].taskId in j.groups[g]
        {
          if j.running[i].taskId !in j.groups[g] {
            assert FirstGroupWith(j.groups, id, 0) == Some(g);
            return false;
          }
          i := i + 1;
        }
        assert FirstGroupWith(j.groups, id, 0) == Some(g);
        return true;
      }
      g := g + 1;
    }
    return true;
  }

  /** Starting a task that was allowed to start keeps the job within its cap. */
  lemma AddAllowedKeepsCap(j: Job, r: TaskRef)
    requires CanRun(j, r.taskId)
    ensures AddTasksRunning(j, r).runningQuantity <= j.maxParallel
  {
  }

  /** Once a task of some group runs, a task is admitted only if the first
      group mentioning it also holds every running task; a task mentioned by
      no group is admitted whatever runs. */
  lemma AdmissionFollowsFirstGroup(j: Job, id: int, g: nat)
    requires g < |j.groups| && id in j.groups[g]
    requires forall k :: 0 <= k < g ==> id !in j.groups[k]
    requires j.runningQuantity < j.maxParallel
    ensures CanRun(j, id) <==> forall k :: 0 <= k < |j.running| ==> j.running[k].taskId in j.groups[g]
  {
    assert FirstGroupWith(j.groups, id, 0) == Some(g);
  }

  /** Adding keeps the counter in step with the list. */
  lemma AddKeepsCounted(j: Job, r: TaskRef)
    requires Counted(j)
    ensures Counted(AddTasksRunning(j, r))
  {
  }

  /** Removing keeps the counter in step with the list exactly when the task
      was in the list: otherwise only the counter drops. */
  lemma RemoveKeepsCountedIffPresent(j: Job, r: TaskRef)
    requires Counted(j)
    ensures Counted(RemoveTasksRunning(j, r)) <==> exists k :: 0 <= k < |j.running| && j.running[k].cloudletId == r.cloudletId
  {
  }

  /** When every entry of that cloudlet is the same reference, removal takes
      away exactly one occurrence of it as a multiset (none if absent). */
  lemma {:induction false} RemoveFirstMultiset(s: seq<TaskRef>, x: TaskRef)
    requires forall y :: y in s && y.cloudletId == x.cloudletId ==> y == x
    ensures multiset(RemoveFirst(s, x.cloudletId)) == multiset(s) - multiset{x}
  {
    if |s| > 0 {
      assert s == [s[0]] + s[1..];
      if s[0].cloudletId != x.cloudletId {
        RemoveFirstMultiset(s[1..], x);
        assert s[0] != x;
      }
    }
  }
}
