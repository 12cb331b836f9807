/** StrategyBase: what every strategy of the Python service shares.

    An observation is a flat list of numbers: the task part, the clock, then
    four numbers per server (mips, ram, storage, busy flag). A strategy
    knows each server's properties from the setup message and answers a
    decision request with an action and the CPU share and time it used.
 */
module StrategyBase {
  import opened Wrappers

  /** punishing_reward and empty_value. */
  const PUNISHING_REWARD: real := -1.0
  const EMPTY_VALUE: real := 0.0

  /** A server's properties as sent at setup; the strategies read the ram
      and the storage (list positions 1 and 2). */
  datatype Device = Device(mips: real, ram: real, storage: real)

  /** What monitor_toc measures: the CPU percent and the elapsed time. */
  datatype Cost = Cost(cpu: real, time: real)

  const NO_COST: Cost := Cost(0.0, 0.0)

  /** A strategy's answer: -1 when no server is available, a server index
      for the placement strategies, a task and a server index for the one
      that also schedules. */
  datatype Action = NoServer | Server(server: nat) | TaskServer(task: nat, server: nat)

  datatype Answer = Answer(action: Action, cost: Cost)

  /** The fields the base class keeps: the device list and its size are
      None until initAgent. */
  datatype Base = Base(devices: Option<seq<Device>>, numDevices: Option<nat>, punishingReward: real, emptyValue: real)

  function NewBase(): (b: Base)
    ensures b.devices.None? && b.numDevices.None?
    ensures b.punishingReward == -1.0 && b.emptyValue == 0.0
  {
    Base(None, None, PUNISHING_REWARD, EMPTY_VALUE)
  }

  /** initAgent: remember the devices and count them. */
  function InitAgent(b: Base, devices: seq<Device>): (r: Base)
    ensures r.devices == Some(devices) && r.numDevices == Some(|devices|)
    ensures r.punishingReward == b.punishingReward && r.emptyValue == b.emptyValue
  {
    b.(devices := Some(devices), numDevices := Some(|devices|))
  }

  /** The default save_reward: no cost, no change. */
  function DefaultSaveReward(b: Base, actionId: int, reward: real): (r: (Base, Cost))
    ensures r.0 == b && r.1.cpu == 0.0 && r.1.time == 0.0
  {
    (b, NO_COST)
  }

  /** The default learn coincides with the default save_reward: the new
      observation is ignored, as the reward is there. */
  function DefaultLearn(b: Base, actionId: int, state: seq<real>): (r: (Base, Cost))
    ensures r.0 == b && r.1.cpu == 0.0 && r.1.time == 0.0
  {
    DefaultSaveReward(b, actionId, 0.0)
  }

  // ---------------------------------------------------------------------
  // get_available_servers_for_placement

  /** int(x) == 0 for a float x: int truncates toward zero. */
  predicate TruncatesToZero(x: real) {
    -1.0 < x < 1.0
  }

  /** A server with at least the ram and storage asked for. */
  predicate Fits(d: Device, ram: real, storage: real) {
    d.ram >= ram && d.storage >= storage
  }

  /** int(len(state[7:]) / 4): the servers of a single-task observation. */
  function NodeCount(state: seq<real>): nat {
    if |state| >= 7 then (|state| - 7) / 4 else 0
  }

  /** Server i of a single-task observation is free and takes its task. */
  predicate Available(devices: seq<Device>, state: seq<real>, i: nat)
    requires i < NodeCount(state)
  {
    TruncatesToZero(state[7 + 4 * i + 3]) && i < |devices| && Fits(devices[i], state[1], state[2])
  }

  predicate Increasing(s: seq<nat>) {
    forall a, b :: 0 <= a < b < |s| ==> s[a] < s[b]
  }

  /** The servers from `from` on that are free and take the task, in
      ascending order; a free server without a device entry is an index
      error. */
  function AvailableFrom(devices: seq<Device>, state: seq<real>, from: nat): (r: Result<seq<nat>>)
    requires from <= NodeCount(state)
    ensures r.Ok? ==> Increasing(r.value)
    ensures r.Ok? ==> forall i :: i in r.value <==> from <= i < NodeCount(state) && Available(devices, state, i)
    ensures r.Fail? <==> exists i :: from <= i < NodeCount(state) && TruncatesToZero(state[7 + 4 * i + 3]) && i >= |devices|
    ensures r.Fail? ==> r.fault == IndexOutOfBounds
    decreases NodeCount(state) - from
  {
    if from == NodeCount(state) then Ok([])
    else if TruncatesToZero(state[7 + 4 * from + 3]) && from >= |devices| then Fail(IndexOutOfBounds)
    else
      var rest :- AvailableFrom(devices, state, from + 1);
      if Available(devices, state, from) then
        assert forall k :: 0 <= k < |rest| ==> rest[k] in rest;
        Ok([from] + rest)
      else Ok(rest)
  }

  /** get_available_servers_for_placement: the indices of the servers that
      are free and take the task, ascending. */
  function AvailableServers(devices: seq<Device>, state: seq<real>): (r: Result<seq<nat>>)
    ensures r.Ok? ==> Increasing(r.value)
    ensures r.Ok? ==> forall i: nat :: i in r.value <==> i < NodeCount(state) && Available(devices, state, i)
    ensures r.Fail? <==> exists i :: 0 <= i < NodeCount(state) && TruncatesToZero(state[7 + 4 * i + 3]) && i >= |devices|
  {
    AvailableFrom(devices, state, 0)
  }

  /** With a device entry for every server the filter cannot fail. */
  lemma AvailableServersTotal(devices: seq<Device>, state: seq<real>)
    requires NodeCount(state) <= |devices|
    ensures AvailableServers(devices, state).Ok?
  {
  }

  /** The first available server is the smallest one. */
  lemma FirstAvailableIsLeast(devices: seq<Device>, state: seq<real>)
    requires AvailableServers(devices, state).Ok? && |AvailableServers(devices, state).value| > 0
    ensures var av := AvailableServers(devices, state).value;
      forall i :: 0 <= i < NodeCount(state) && Available(devices, state, i) ==> av[0] <= i
  {
    var av := AvailableServers(devices, state).value;
    forall i | 0 <= i < NodeCount(state) && Available(devices, state, i)
      ensures av[0] <= i
    {
      var k :| 0 <= k < |av| && av[k] == i;
      assert k == 0 || av[0] < av[k];
    }
  }

  // ---------------------------------------------------------------------
  // get_first_task_by_priority

  /** len(state) - (4N + 1): the length of the task part. */
  function TaskPartSize(n: nat, state: seq<real>): int {
    |state| - (4 * n + 1)
  }

  /** int(size / 6): the tasks of a multi-task observation. */
  function TaskCount(n: nat, state: seq<real>): nat {
    if TaskPartSize(n, state) >= 0 then TaskPartSize(n, state) / 6 else 0
  }

  function TaskPriority(n: nat, state: seq<real>, t: nat): real
    requires t < TaskCount(n, state)
  {
    state[6 * t + 5]
  }

  /** Some server of the multi-task observation is free (flag exactly 0)
      and takes task t. */
  predicate FitsIdle(devices: seq<Device>, state: seq<real>, t: nat)
    requires t < TaskCount(|devices|, state)
  {
    var size := TaskPartSize(|devices|, state);
    exists s :: 0 <= s < |devices| && state[size + 1 + 4 * s + 3] == 0.0
      && Fits(devices[s], state[6 * t + 1], state[6 * t + 2])
  }

  /** `m` maps each priority of a task before `upto` that fits an idle
      server to the first such task. */
  predicate FirstByPriority(devices: seq<Device>, state: seq<real>, upto: nat, m: map<real, nat>)
    requires upto <= TaskCount(|devices|, state)
  {
    && (forall p :: p in m ==>
          && m[p] < upto
          && TaskPriority(|devices|, state, m[p]) == p
          && FitsIdle(devices, state, m[p])
          && forall t :: 0 <= t < m[p] && TaskPriority(|devices|, state, t) == p ==> !FitsIdle(devices, state, t))
    && (forall t :: 0 <= t < upto && FitsIdle(devices, state, t) ==> TaskPriority(|devices|, state, t) in m)
  }

  /** The scan from task `t` on, with the map of the tasks before it. */
  function ScanTasks(devices: seq<Device>, state: seq<real>, t: nat, acc: map<real, nat>): map<real, nat>
    requires t <= TaskCount(|devices|, state)
    decreases TaskCount(|devices|, state) - t
  {
    if t == TaskCount(|devices|, state) then acc
    else
      var p := TaskPriority(|devices|, state, t);
      if p !in acc && FitsIdle(devices, state, t) then ScanTasks(devices, state, t + 1, acc[p := t])
      else ScanTasks(devices, state, t + 1, acc)
  }

  /** get_first_task_by_priority: each priority with a task that fits an
      idle server, mapped to the first such task. */
  function FirstTaskByPriority(devices: seq<Device>, state: seq<real>): (r: map<real, nat>)
    ensures FirstByPriority(devices, state, TaskCount(|devices|, state), r)
  {
    ScanKeepsFirst(devices, state, 0, map[]);
    ScanTasks(devices, state, 0, map[])
  }

  /** Each scan step extends the map to one more task. */
  lemma {:induction false} ScanKeepsFirst(devices: seq<Device>, state: seq<real>, t: nat, acc: map<real, nat>)
    requires t <= TaskCount(|devices|, state) && FirstByPriority(devices, state, t, acc)
    ensures FirstByPriority(devices, state, TaskCount(|devices|, state), ScanTasks(devices, state, t, acc))
    decreases TaskCount(|devices|, state) - t
  {
    if t < TaskCount(|devices|, state) {
      var p := TaskPriority(|devices|, state, t);
      if p !in acc && FitsIdle(devices, state, t) {
        FirstOfItsPriority(devices, state, t, acc);
        ScanKeepsFirst(devices, state, t + 1, acc[p := t]);
      } else {
        NotFirstOfItsPriority(devices, state, t, acc);
        ScanKeepsFirst(devices, state, t + 1, acc);
      }
    }
  }

  /** A task that fits an idle server and whose priority is not mapped yet
      becomes its priority's first task. */
  lemma FirstOfItsPriority(devices: seq<Device>, state: seq<real>, t: nat, acc: map<real, nat>)
    requires t < TaskCount(|devices|, state) && FirstByPriority(devices, state, t, acc)
    requires TaskPriority(|devices|, state, t) !in acc && FitsIdle(devices, state, t)
    ensures FirstByPriority(devices, state, t + 1, acc[TaskPriority(|devices|, state, t) := t])
  {
    var n := |devices|;
    var p := TaskPriority(n, state, t);
    var acc' := acc[p := t];
    forall q | q in acc'
      ensures && acc'[q] < t + 1
              && TaskPriority(n, state, acc'[q]) == q
              && FitsIdle(devices, state, acc'[q])
              && forall u :: 0 <= u < acc'[q] && TaskPriority(n, state, u) == q ==> !FitsIdle(devices, state, u)
    {
      if q != p {
        assert acc'[q] == acc[q];
      }
    }
  }

  /** Any other task leaves the map as it is. */
  lemma NotFirstOfItsPriority(devices: seq<Device>, state: seq<real>, t: nat, acc: map<real, nat>)
    requires t < TaskCount(|devices|, state) && FirstByPriority(devices, state, t, acc)
    requires !(TaskPriority(|devices|, state, t) !in acc && FitsIdle(devices, state, t))
    ensures FirstByPriority(devices, state, t + 1, acc)
  {
  }

  /** Every mapped task exists and has its key's priority. */
  lemma FirstTaskInRange(devices: seq<Device>, state: seq<real>, p: real)
    requires p in FirstTaskByPriority(devices, state)
    ensures var t := FirstTaskByPriority(devices, state)[p];
      t < TaskCount(|devices|, state) && 6 * t + 5 < |state| && state[6 * t + 5] == p
  {
  }
}
