/** The gateway's decision step: TSPPlacementAlgorithm (the head of the queue
    onto a chosen server) and TSPSchedulingAndPlacementAlgorithm (a chosen
    task onto a chosen server).

    A step releases the finished tasks, sends the observation to the
    strategy service and reads its reply, which is an input here. Either the
    service answers -1 (every server busy), or the chosen task's deadline is
    checked against the chosen server: a task that would miss it is counted
    and dropped, any other is bound to the server, which turns busy. Both
    outcomes save the reward and ask for a retrain under the request
    sequence number.
 */
module Placement {
  import opened Wrappers
  import opened Entities
  import opened JobManager
  import opened EnvHelper
  import opened StrategyAlgorithm

  /** The requests a step sends to the strategy service. */
  datatype Request =
    | AskDecision(id: int, state: seq<real>)
    | SaveRewardRequest(id: int, reward: real)
    | RetrainRequest(id: int, state: seq<real>)

  /** What a step runs against: the upload links, whether the gateway's own
      computation time counts, and the simulation clock. */
  datatype Env = Env(uplink: Uplink, considerGatewayTime: bool, clock: real)

  /** The effects of one step. `queue` is the cloudlet list afterwards (a
      bound task is the same object as the scheduled one); `dropped` holds
      the task that missed its deadline; `result` is the decision time
      returned, or the exception that interrupted the step, whose earlier
      effects stay. */
  datatype Step = Step(
    m: Manager,
    vms: seq<Vm>,
    queue: seq<Task>,
    scheduled: seq<Task>,
    dropped: seq<Task>,
    allBusy: bool,
    deadlines: bool,
    sent: seq<Request>,
    result: Result<real>)

  /** What the step needs of the data it runs on: the current episode
      exists, every executing task's job is known, every server has a speed
      and a usable link, and every queued task has a deadline window.
      (Java's doubles would turn the zero divisors into infinities.) */
  predicate Ready(m: Manager, vms: seq<Vm>, queue: seq<Task>, env: Env) {
    && ValidEpisode(m)
    && m.simMips != 0.0
    && (forall t :: t in m.executing ==> t.jobId in m.jobs)
    && Usable(NotMobile(vms), env.uplink)
    && Windows(queue)
  }

  /** Every server has a speed and a usable link. */
  predicate Usable(servers: seq<Vm>, u: Uplink) {
    forall k :: 0 <= k < |servers| ==> servers[k].mips != 0.0 && LinkUsable(u, servers[k].datacenterId)
  }

  /** Every queued task has a deadline window. */
  predicate Windows(queue: seq<Task>) {
    forall k :: 0 <= k < |queue| ==> queue[k].deadline != queue[k].arrival
  }

  /** vm.setState(VM_STATUS_BUSY). The VM object is shared by every list
      that holds it; it is identified here by its id. */
  function SetBusy(vms: seq<Vm>, id: int): (r: seq<Vm>)
    ensures |r| == |vms|
    ensures forall i :: 0 <= i < |vms| ==> r[i].idle == (vms[i].idle && vms[i].id != id)
    ensures forall i :: 0 <= i < |vms| ==> r[i].(idle := vms[i].idle) == vms[i]
  {
    if |vms| == 0 then []
    else [if vms[0].id == id then vms[0].(idle := false) else vms[0]] + SetBusy(vms[1..], id)
  }

  /** List.remove(int): the element at `pos` leaves, the others keep their
      order. */
  function RemoveAt(q: seq<Task>, pos: nat): (r: seq<Task>)
    requires pos < |q|
    ensures |r| == |q| - 1
    ensures forall i :: 0 <= i < pos ==> r[i] == q[i]
    ensures forall i :: pos <= i < |r| ==> r[i] == q[i + 1]
  {
    q[..pos] + q[pos + 1..]
  }

  /** The deadline test: the decision, the upload and the run end strictly
      after the deadline. */
  predicate Exceeded(env: Env, decision: real, t: Task, v: Vm)
    requires v.mips != 0.0 && LinkUsable(env.uplink, v.datacenterId)
  {
    env.clock + decision + OffloadingTime(env.uplink, v.datacenterId, t.storage) + t.mi / v.mips > t.deadline
  }

  /** The requests after a decision: the reward under the current id, then
      the retrain of the previous id unless this is the first request. */
  function Notices(id: int, reward: real, state: seq<real>): (r: seq<Request>)
    ensures |r| == (if id != 0 then 2 else 1)
    ensures r[0] == SaveRewardRequest(id, reward)
    ensures id != 0 ==> r[1] == RetrainRequest(id - 1, state)
  {
    [SaveRewardRequest(id, reward)] + (if id != 0 then [RetrainRequest(id - 1, state)] else [])
  }

  /** An exception before anything was decided: the flags stay false and
      nothing is scheduled. */
  function Interrupted(m: Manager, vms: seq<Vm>, queue: seq<Task>, sent: seq<Request>, f: Fault): (r: Step)
    ensures r.result == Fail(f) && !r.allBusy && !r.deadlines
    ensures r.m == m && r.vms == vms && r.queue == queue && r.sent == sent
    ensures r.scheduled == [] && r.dropped == []
  {
    Step(m, vms, queue, [], [], false, false, sent, Fail(f))
  }

  // ---------------------------------------------------------------------
  // The part both strategies share, from the deadline test on

  /** The task at `pos` on server `v`, decided after `decision` seconds.
      The reward is computed and recorded first. A task past its deadline
      is counted and leaves the queue (with vmId -1 when `unbind`); any other
      task is bound to `v`, which turns busy, joins the running tasks with
      its start time, and adds its run time to its host's busy time. A job
      or host the manager does not know interrupts the step at that point. */
  function Commit(m: Manager, vms: seq<Vm>, queue: seq<Task>, pos: nat, v: Vm, decision: real,
                  state: seq<real>, unbind: bool, env: Env): (r: Step)
    requires ValidEpisode(m) && pos < |queue| && queue[pos].deadline != queue[pos].arrival
    requires v.mips != 0.0 && LinkUsable(env.uplink, v.datacenterId)
    ensures ValidEpisode(r.m) && |r.m.episodes| == |m.episodes|
    ensures !r.allBusy
    ensures r.deadlines <==> Exceeded(env, decision, queue[pos], v)
    ensures r.deadlines ==>
      && r.result == Ok(decision)
      && r.queue == RemoveAt(queue, pos) && r.vms == vms && r.scheduled == []
      && r.dropped == [if unbind then queue[pos].(vmId := -1) else queue[pos]]
      && r.m.exceededQuantity == m.exceededQuantity + 1
      && r.m.episodes[m.currentEpisode].exceededIds
           == m.episodes[m.currentEpisode].exceededIds + [queue[pos].cloudletId]
      && r.m.executing == m.executing
    ensures !r.deadlines ==>
      && r.dropped == []
      && |r.scheduled| == 1 && r.queue == queue[pos := r.scheduled[0]]
      && r.scheduled[0].(vmId := queue[pos].vmId, decisionTime := queue[pos].decisionTime,
                         startProcessing := queue[pos].startProcessing) == queue[pos]
      && r.scheduled[0].vmId == v.id
      && r.vms == SetBusy(vms, v.id)
      && r.m.exceededQuantity == m.exceededQuantity
      && (r.result.Ok? <==> queue[pos].jobId in m.jobs && v.hostId in m.deviceBusy)
    ensures !r.deadlines && r.result.Ok? ==>
      && r.scheduled[0].decisionTime == decision
      && r.scheduled[0].startProcessing == env.clock + decision + OffloadingTime(env.uplink, v.datacenterId, queue[pos].storage)
      && r.m.executing == m.executing + [r.scheduled[0]]
      && r.m.deviceBusy == m.deviceBusy[v.hostId := m.deviceBusy[v.hostId] + queue[pos].mi / v.mips]
    ensures r.result.Ok? ==>
      && r.result.value == decision
      && r.m.lastExecutedTaskNo == m.lastExecutedTaskNo + 1
      && r.sent == Notices(m.lastExecutedTaskNo, RewardValue(queue[pos], r.deadlines, queue[pos].mi / v.mips), state)
    ensures r.result.Fail? ==> r.sent == [] && r.m.lastExecutedTaskNo == m.lastExecutedTaskNo
    ensures r.m.episodes[m.currentEpisode].rewards
              == m.episodes[m.currentEpisode].rewards + [RewardValue(queue[pos], r.deadlines, queue[pos].mi / v.mips)]
    ensures r.m.completedQuantity == m.completedQuantity && r.m.currentEpisode == m.currentEpisode
  {
    var t := queue[pos];
    var offload := OffloadingTime(env.uplink, v.datacenterId, t.storage);
    var run := t.mi / v.mips;
    var exceeded := env.clock + decision + offload + run > t.deadline;
    var (reward, m1) := GetReward(m, t, exceeded, decision, run);
    var id := m.lastExecutedTaskNo;
    if exceeded then
      var m2 := RegisterTaskExceedingDeadline(m1, t);
      Step(m2.(lastExecutedTaskNo := id + 1), vms, RemoveAt(queue, pos), [],
           [if unbind then t.(vmId := -1) else t], false, true, Notices(id, reward, state), Ok(decision))
    else
      var bound := t.(vmId := v.id);
      var busy := SetBusy(vms, v.id);
      if t.jobId !in m1.jobs then
        Step(m1, busy, queue[pos := bound], [bound], [], false, false, [], Fail(NullReference))
      else
        var start := env.clock + decision + offload;
        var placed := bound.(decisionTime := decision, startProcessing := start);
        var m2 := AddTaskRunning(m1, bound, decision, start);
        match UpdateDeviceBusyTime(m2, v.hostId, run)
        case Fail(f) => Step(m2, busy, queue[pos := placed], [placed], [], false, false, [], Fail(f))
        case Ok(m3) =>
          Step(m3.(lastExecutedTaskNo := id + 1), busy, queue[pos := placed], [placed], [], false, false,
               Notices(id, reward, state), Ok(decision))
  }

  // ---------------------------------------------------------------------
  // What follows the request

  /** The task and the server the action names, as positions in the queue
      and in the server list: the head and action[0] for placement;
      action[0] and action[1] for scheduling and placement. An index outside
      its list, or a missing second number, throws. */
  function Choose(action: seq<int>, queueSize: nat, serverCount: nat, schedule: bool): (r: Result<(nat, nat)>)
    requires |action| > 0
    ensures r.Ok? <==>
      if schedule then |action| >= 2 && 0 <= action[0] < queueSize && 0 <= action[1] < serverCount
      else queueSize > 0 && 0 <= action[0] < serverCount
    ensures r.Ok? ==> r.value.0 < queueSize && r.value.1 < serverCount
    ensures r.Ok? && !schedule ==> r.value.0 == 0 && r.value.1 == action[0]
    ensures r.Ok? && schedule ==> r.value.0 == action[0] && r.value.1 == action[1]
    ensures r.Fail? ==> r.fault == IndexOutOfBounds
  {
    if !schedule then
      if queueSize > 0 && 0 <= action[0] < serverCount then Ok((0, action[0] as nat)) else Fail(IndexOutOfBounds)
    else if !(0 <= action[0] < queueSize) || |action| < 2 || !(0 <= action[1] < serverCount) then Fail(IndexOutOfBounds)
    else Ok((action[0] as nat, action[1] as nat))
  }

  /** The step once the observation `state` is sent and the reply read into
      `d`: an unreadable reply or an empty action throws; -1 reports every
      server busy; otherwise the named task and server are committed, the
      placement strategy unbinding a dropped task. */
  function Decide(d: Decoded, vms: seq<Vm>, queue: seq<Task>, state: seq<real>, schedule: bool, env: Env): (r: Step)
    requires ValidEpisode(d.m) && Windows(queue) && Usable(NotMobile(vms), env.uplink)
    ensures |r.sent| > 0 && r.sent[0] == AskDecision(d.m.lastExecutedTaskNo, state)
    ensures r.allBusy <==> d.result.Ok? && |d.result.value.action| > 0 && d.result.value.action[0] == -1
    ensures r.result.Ok? ==> d.result.Ok? && r.result.value == d.result.value.time
    ensures r.m.completedQuantity == d.m.completedQuantity
  {
    var ask := AskDecision(d.m.lastExecutedTaskNo, state);
    match d.result
    case Fail(f) => Interrupted(d.m, vms, queue, [ask], f)
    case Ok(res) =>
      if |res.action| == 0 then Interrupted(d.m, vms, queue, [ask], IndexOutOfBounds)
      else if res.action[0] == -1 then Step(d.m, vms, queue, [], [], true, false, [ask], Ok(res.time))
      else
        var servers := NotMobile(vms);
        match Choose(res.action, |queue|, |servers|, schedule)
        case Fail(f) => Interrupted(d.m, vms, queue, [ask], f)
        case Ok(choice) =>
          var c := Commit(d.m, vms, queue, choice.0, servers[choice.1], res.time, state, !schedule, env);
          c.(sent := [ask] + c.sent)
  }

  /** A decision outcome: the request goes first; a -1 answer reports every
      server busy with nothing else done; an exception leaves the flags
      false and the sequence number as it was; a decided step advances it. */
  lemma DecideOutcome(d: Decoded, vms: seq<Vm>, queue: seq<Task>, state: seq<real>, schedule: bool, env: Env)
    requires ValidEpisode(d.m) && Windows(queue) && Usable(NotMobile(vms), env.uplink)
    ensures var r := Decide(d, vms, queue, state, schedule, env);
      && |r.sent| > 0 && r.sent[0] == AskDecision(d.m.lastExecutedTaskNo, state)
      && (r.allBusy <==> d.result.Ok? && |d.result.value.action| > 0 && d.result.value.action[0] == -1)
      && (r.allBusy ==>
            && r.result == Ok(d.result.value.time) && r.m == d.m && |r.sent| == 1
            && r.queue == queue && r.vms == vms && r.scheduled == [] && r.dropped == [] && !r.deadlines)
      && (r.result.Ok? ==> d.result.Ok? && r.result.value == d.result.value.time)
      && (r.result.Fail? ==> !r.allBusy && !r.deadlines && r.m.lastExecutedTaskNo == d.m.lastExecutedTaskNo)
      && (r.result.Ok? && !r.allBusy ==>
            && r.m.lastExecutedTaskNo == d.m.lastExecutedTaskNo + 1
            && |r.sent| >= 2 && r.sent[1].SaveRewardRequest?
            && r.sent[1..] == Notices(d.m.lastExecutedTaskNo, r.sent[1].reward, state))
      && r.m.completedQuantity == d.m.completedQuantity
  {
  }

  /** When the action names a task and a server, the step is that commit. */
  lemma DecideCommits(d: Decoded, vms: seq<Vm>, queue: seq<Task>, state: seq<real>, schedule: bool, env: Env)
    requires ValidEpisode(d.m) && Windows(queue) && Usable(NotMobile(vms), env.uplink)
    requires d.result.Ok? && |d.result.value.action| > 0 && d.result.value.action[0] != -1
    requires Choose(d.result.value.action, |queue|, |NotMobile(vms)|, schedule).Ok?
    ensures var choice := Choose(d.result.value.action, |queue|, |NotMobile(vms)|, schedule).value;
      var c := Commit(d.m, vms, queue, choice.0, NotMobile(vms)[choice.1], d.result.value.time, state, !schedule, env);
      Decide(d, vms, queue, state, schedule, env) == c.(sent := [AskDecision(d.m.lastExecutedTaskNo, state)] + c.sent)
  {
  }
  /** With the action naming a task and a server: the task is dropped
      exactly when it would end strictly after its deadline on that server,
      leaving the queue (unbound by the placement strategy) with the
      servers untouched; otherwise it is bound to that server, which turns
      busy, and becomes the one scheduled cloudlet, in place in the queue. */
  lemma DecideDeadlineTest(d: Decoded, vms: seq<Vm>, queue: seq<Task>, state: seq<real>, schedule: bool, env: Env)
    requires ValidEpisode(d.m) && Windows(queue) && Usable(NotMobile(vms), env.uplink)
    requires d.result.Ok? && |d.result.value.action| > 0 && d.result.value.action[0] != -1
    requires Choose(d.result.value.action, |queue|, |NotMobile(vms)|, schedule).Ok?
    ensures var choice := Choose(d.result.value.action, |queue|, |NotMobile(vms)|, schedule).value;
      var t := queue[choice.0];
      var v := NotMobile(vms)[choice.1];
      var r := Decide(d, vms, queue, state, schedule, env);
      && (r.deadlines <==> Exceeded(env, d.result.value.time, t, v))
      && (r.deadlines ==>
            && r.queue == RemoveAt(queue, choice.0) && r.vms == vms && r.scheduled == []
            && r.dropped == [if schedule then t else t.(vmId := -1)]
            && r.m.exceededQuantity == d.m.exceededQuantity + 1)
      && (!r.deadlines ==>
            && |r.scheduled| == 1 && r.queue == queue[choice.0 := r.scheduled[0]]
            && r.scheduled[0].cloudletId == t.cloudletId && r.scheduled[0].vmId == v.id
            && r.vms == SetBusy(vms, v.id) && r.dropped == [])
  {
    DecideCommits(d, vms, queue, state, schedule, env);
  }

  // ---------------------------------------------------------------------
  // runSteep

  /** The manager after the release and the reply read at the step's clock. */
  function Reply(m: Manager, reply: string, env: Env): (d: Decoded)
    requires ValidEpisode(m) && m.simMips != 0.0
    requires forall t :: t in m.executing ==> t.jobId in m.jobs
    ensures ValidEpisode(d.m) && d.m.lastExecutedTaskNo == m.lastExecutedTaskNo
    ensures d.m.currentEpisode == m.currentEpisode && |d.m.episodes| == |m.episodes|
    ensures d.m.completedQuantity == m.completedQuantity + |Released(m.executing, env.clock)|
    ensures d.m.episodes[m.currentEpisode].rewards == m.episodes[m.currentEpisode].rewards
  {
    ParseDecision(ReleaseFinishedTasks(m, env.clock), reply, env.considerGatewayTime, env.clock)
  }

  /** A returned cloudlet that was executing (the broker records its finish
      time in the manager) is completed by the release that opens the next
      step of either strategy at a clock up to its finish time, in
      particular by the step of the update scheduled at the completion
      clock: that step counts one completion more at least. */
  lemma ReturnedTaskCompletes(m: Manager, c: Task, reply: string, env: Env)
    requires ValidEpisode(m) && m.simMips != 0.0 && forall t :: t in m.executing ==> t.jobId in m.jobs
    requires c.finish != NOT_FINISHED && IsExecuting(m, c.cloudletId) && env.clock <= c.finish
    ensures var m1 := RecordFinish(m, c);
      ValidEpisode(m1) && m1.simMips != 0.0 && forall t :: t in m1.executing ==> t.jobId in m1.jobs
    ensures Reply(RecordFinish(m, c), reply, env).m.completedQuantity >= m.completedQuantity + 1
  {
    ReturnReleasedAt(m, c, env.clock);
  }

  /** TSPPlacementAlgorithm.runSteep: release, then ask about the head of
      the queue with the servers off the gateway; the reply's first number
      is a server index, or -1 when every server is busy. A dropped head
      leaves the queue; a bound one stays for the broker to submit. Taking
      the head of an empty queue throws. */
  function PlacementStep(m: Manager, vms: seq<Vm>, queue: seq<Task>, reply: string, env: Env): (r: Step)
    requires Ready(m, vms, queue, env)
    ensures |queue| == 0 ==> r.result == Fail(IndexOutOfBounds) && r.sent == [] && !r.allBusy
    ensures |queue| > 0 ==>
      |r.sent| > 0 && r.sent[0] == AskDecision(m.lastExecutedTaskNo, StateWithTaskAndEnv(queue[0], NotMobile(vms), env.clock))
    ensures r.m.completedQuantity == m.completedQuantity + |Released(m.executing, env.clock)|
  {
    if |queue| == 0 then Interrupted(ReleaseFinishedTasks(m, env.clock), vms, queue, [], IndexOutOfBounds)
    else
      var state := StateWithTaskAndEnv(queue[0], NotMobile(vms), env.clock);
      DecideOutcome(Reply(m, reply, env), vms, queue, state, false, env);
      Decide(Reply(m, reply, env), vms, queue, state, false, env)
  }

  /** TSPSchedulingAndPlacementAlgorithm.runSteep: release, then ask about
      the whole queue with the servers off the gateway; the reply names a
      task index and a server index, or starts with -1 when every server is
      busy. A dropped task leaves the queue at its index. */
  function SchedulingStep(m: Manager, vms: seq<Vm>, queue: seq<Task>, reply: string, env: Env): (r: Step)
    requires Ready(m, vms, queue, env)
    ensures |r.sent| > 0
    ensures r.sent[0] == AskDecision(m.lastExecutedTaskNo, StateWithTasksAndEnv(queue, NotMobile(vms), env.clock))
    ensures r.m.completedQuantity == m.completedQuantity + |Released(m.executing, env.clock)|
  {
    var state := StateWithTasksAndEnv(queue, NotMobile(vms), env.clock);
    DecideOutcome(Reply(m, reply, env), vms, queue, state, true, env);
    Decide(Reply(m, reply, env), vms, queue, state, true, env)
  }

  /** Either step reports every server busy exactly on a -1 answer to its
      request; it then returns the decision time, sends nothing more and
      changes nothing but the release and the gateway sample: no reward, no
      sequence number, nothing scheduled or dropped. */
  lemma AllBusyAnswer(m: Manager, vms: seq<Vm>, queue: seq<Task>, reply: string, env: Env, schedule: bool)
    requires Ready(m, vms, queue, env)
    ensures var r := if schedule then SchedulingStep(m, vms, queue, reply, env) else PlacementStep(m, vms, queue, reply, env);
      var d := Reply(m, reply, env);
      && (r.allBusy <==>
            (schedule || |queue| > 0) && d.result.Ok? && |d.result.value.action| > 0 && d.result.value.action[0] == -1)
      && (r.allBusy ==>
            && r.result == Ok(d.result.value.time) && r.m == d.m && |r.sent| == 1
            && r.m.lastExecutedTaskNo == m.lastExecutedTaskNo
            && r.m.episodes[m.currentEpisode].rewards == m.episodes[m.currentEpisode].rewards
            && r.queue == queue && r.vms == vms && r.scheduled == [] && r.dropped == [] && !r.deadlines)
  {
    var state := if schedule then StateWithTasksAndEnv(queue, NotMobile(vms), env.clock)
                 else if |queue| > 0 then StateWithTaskAndEnv(queue[0], NotMobile(vms), env.clock) else [];
    if schedule || |queue| > 0 {
      DecideOutcome(Reply(m, reply, env), vms, queue, state, schedule, env);
    }
  }

  /** A decided placement step sends the reward under the current sequence
      number, then the retrain under the previous one unless this is the
      first request, and the number advances by one. An exception keeps
      it. */
  lemma PlacementRequests(m: Manager, vms: seq<Vm>, queue: seq<Task>, reply: string, env: Env)
    requires Ready(m, vms, queue, env)
    ensures var r := PlacementStep(m, vms, queue, reply, env);
      && (r.result.Ok? && !r.allBusy ==>
            && |queue| > 0
            && r.m.lastExecutedTaskNo == m.lastExecutedTaskNo + 1
            && |r.sent| >= 2 && r.sent[1].SaveRewardRequest?
            && r.sent[1..] == Notices(m.lastExecutedTaskNo, r.sent[1].reward,
                                      StateWithTaskAndEnv(queue[0], NotMobile(vms), env.clock)))
      && (r.result.Fail? ==> !r.allBusy && !r.deadlines && r.m.lastExecutedTaskNo == m.lastExecutedTaskNo)
  {
    if |queue| > 0 {
      var state := StateWithTaskAndEnv(queue[0], NotMobile(vms), env.clock);
      DecideOutcome(Reply(m, reply, env), vms, queue, state, false, env);
    }
  }

  /** The same requests for the scheduling step, whose observation covers
      the whole queue. */
  lemma SchedulingRequests(m: Manager, vms: seq<Vm>, queue: seq<Task>, reply: string, env: Env)
    requires Ready(m, vms, queue, env)
    ensures var r := SchedulingStep(m, vms, queue, reply, env);
      && (r.result.Ok? && !r.allBusy ==>
            && r.m.lastExecutedTaskNo == m.lastExecutedTaskNo + 1
            && |r.sent| >= 2 && r.sent[1].SaveRewardRequest?
            && r.sent[1..] == Notices(m.lastExecutedTaskNo, r.sent[1].reward,
                                      StateWithTasksAndEnv(queue, NotMobile(vms), env.clock)))
      && (r.result.Fail? ==> !r.allBusy && !r.deadlines && r.m.lastExecutedTaskNo == m.lastExecutedTaskNo)
  {
    var state := StateWithTasksAndEnv(queue, NotMobile(vms), env.clock);
    DecideOutcome(Reply(m, reply, env), vms, queue, state, true, env);
  }

  /** The placement step with a server index in range: the head is dropped
      (and unbound) exactly when it would end strictly after its deadline on
      that server; otherwise it stays at the head, bound to that server. */
  lemma PlacementDeadlineTest(m: Manager, vms: seq<Vm>, queue: seq<Task>, reply: string, env: Env)
    requires Ready(m, vms, queue, env) && |queue| > 0
    requires Reply(m, reply, env).result.Ok?
    requires |Reply(m, reply, env).result.value.action| > 0
    requires 0 <= Reply(m, reply, env).result.value.action[0] < |NotMobile(vms)|
    ensures var r := PlacementStep(m, vms, queue, reply, env);
      var d := Reply(m, reply, env);
      var v := NotMobile(vms)[d.result.value.action[0]];
      && (r.deadlines <==> Exceeded(env, d.result.value.time, queue[0], v))
      && (r.deadlines ==>
            && r.queue == queue[1..] && r.vms == vms && r.scheduled == []
            && r.dropped == [queue[0].(vmId := -1)])
      && (!r.deadlines ==>
            && |r.scheduled| == 1 && |r.queue| == |queue| && r.scheduled[0] == r.queue[0]
            && r.queue[1..] == queue[1..]
            && r.scheduled[0].cloudletId == queue[0].cloudletId && r.scheduled[0].vmId == v.id
            && r.vms == SetBusy(vms, v.id))
  {
    var state := StateWithTaskAndEnv(queue[0], NotMobile(vms), env.clock);
    var d := Reply(m, reply, env);
    assert PlacementStep(m, vms, queue, reply, env) == Decide(d, vms, queue, state, false, env);
    assert Choose(d.result.value.action, |queue|, |NotMobile(vms)|, false).value == (0, d.result.value.action[0]);
    DecideDeadlineTest(d, vms, queue, state, false, env);
    assert RemoveAt(queue, 0) == queue[1..];
  }

  /** The scheduling step with a task index and a server index in range: the
      named task, not necessarily the head, is dropped exactly when it would
      end strictly after its deadline on the named server, and then only it
      leaves the queue; otherwise it is bound in place to that server. */
  lemma SchedulingDeadlineTest(m: Manager, vms: seq<Vm>, queue: seq<Task>, reply: string, env: Env)
    requires Ready(m, vms, queue, env)
    requires Reply(m, reply, env).result.Ok?
    requires |Reply(m, reply, env).result.value.action| >= 2
    requires 0 <= Reply(m, reply, env).result.value.action[0] < |queue|
    requires 0 <= Reply(m, reply, env).result.value.action[1] < |NotMobile(vms)|
    ensures var r := SchedulingStep(m, vms, queue, reply, env);
      var d := Reply(m, reply, env);
      var pos := d.result.value.action[0];
      var v := NotMobile(vms)[d.result.value.action[1]];
      && (r.deadlines <==> Exceeded(env, d.result.value.time, queue[pos], v))
      && (r.deadlines ==>
            && r.queue == RemoveAt(queue, pos) && r.vms == vms && r.scheduled == []
            && r.dropped == [queue[pos]])
      && (!r.deadlines ==>
            && |r.scheduled| == 1 && |r.queue| == |queue| && r.scheduled[0] == r.queue[pos]
            && (forall i :: 0 <= i < |queue| && i != pos ==> r.queue[i] == queue[i])
            && r.scheduled[0].cloudletId == queue[pos].cloudletId && r.scheduled[0].vmId == v.id
            && r.vms == SetBusy(vms, v.id))
  {
    var d := Reply(m, reply, env);
    SchedulingIsDecide(m, vms, queue, reply, env);
    ScheduleAt(d, vms, queue, StateWithTasksAndEnv(queue, NotMobile(vms), env.clock), env,
               d.result.value.action[0], d.result.value.action[1]);
  }

  lemma SchedulingIsDecide(m: Manager, vms: seq<Vm>, queue: seq<Task>, reply: string, env: Env)
    requires Ready(m, vms, queue, env)
    ensures SchedulingStep(m, vms, queue, reply, env)
         == Decide(Reply(m, reply, env), vms, queue, StateWithTasksAndEnv(queue, NotMobile(vms), env.clock), true, env)
  {
  }

  /** DecideDeadlineTest for a scheduling answer naming task `pos` and
      server `srv`. */
  lemma ScheduleAt(d: Decoded, vms: seq<Vm>, queue: seq<Task>, state: seq<real>, env: Env, pos: int, srv: int)
    requires ValidEpisode(d.m) && Windows(queue) && Usable(NotMobile(vms), env.uplink)
    requires d.result.Ok? && |d.result.value.action| >= 2
    requires pos == d.result.value.action[0] && srv == d.result.value.action[1]
    requires 0 <= pos < |queue| && 0 <= srv < |NotMobile(vms)|
    ensures var r := Decide(d, vms, queue, state, true, env);
      var v := NotMobile(vms)[srv];
      && (r.deadlines <==> Exceeded(env, d.result.value.time, queue[pos], v))
      && (r.deadlines ==>
            && r.queue == RemoveAt(queue, pos) && r.vms == vms && r.scheduled == []
            && r.dropped == [queue[pos]])
      && (!r.deadlines ==>
            && |r.scheduled| == 1 && |r.queue| == |queue| && r.scheduled[0] == r.queue[pos]
            && (forall i :: 0 <= i < |queue| && i != pos ==> r.queue[i] == queue[i])
            && r.scheduled[0].cloudletId == queue[pos].cloudletId && r.scheduled[0].vmId == v.id
            && r.vms == SetBusy(vms, v.id))
  {
    assert Choose(d.result.value.action, |queue|, |NotMobile(vms)|, true).value == (pos, srv);
    DecideDeadlineTest(d, vms, queue, state, true, env);
  }

  // ---------------------------------------------------------------------
  // The job table stays consistent

  /** Consistency reads only the job table and the executing list. */
  lemma ConsistentTables(a: Manager, b: Manager)
    requires a.jobs == b.jobs && a.executing == b.executing && Consistent(a)
    ensures Consistent(b)
  {
  }

  /** A commit keeps the job table in agreement with the executing tasks,
      provided the committed task is not already running. */
  lemma CommitKeepsConsistent(m: Manager, vms: seq<Vm>, queue: seq<Task>, pos: nat, v: Vm, decision: real,
                              state: seq<real>, unbind: bool, env: Env)
    requires ValidEpisode(m) && pos < |queue| && queue[pos].deadline != queue[pos].arrival
    requires v.mips != 0.0 && LinkUsable(env.uplink, v.datacenterId)
    requires Consistent(m) && forall u :: u in m.executing ==> u.cloudletId != queue[pos].cloudletId
    ensures Consistent(Commit(m, vms, queue, pos, v, decision, state, unbind, env).m)
  {
    var t := queue[pos];
    var offload := OffloadingTime(env.uplink, v.datacenterId, t.storage);
    var run := t.mi / v.mips;
    var exceeded := env.clock + decision + offload + run > t.deadline;
    var m1 := SaveReward(m, RewardValue(t, exceeded, run));
    ConsistentTables(m, m1);
    var r := Commit(m, vms, queue, pos, v, decision, state, unbind, env);
    if exceeded {
      assert r.m.jobs == m.jobs && r.m.executing == m.executing;
      ConsistentTables(m, r.m);
    } else if t.jobId in m.jobs {
      var start := env.clock + decision + offload;
      var m2 := AddTaskRunning(m1, t.(vmId := v.id), decision, start);
      AddKeepsConsistent(m1, t.(vmId := v.id), decision, start);
      assert r.m.jobs == m2.jobs && r.m.executing == m2.executing;
      ConsistentTables(m2, r.m);
    } else {
      assert r.m == m1;
    }
  }

  /** The queue's tasks are not running yet. */
  predicate Waiting(m: Manager, queue: seq<Task>) {
    forall k, u :: 0 <= k < |queue| && u in m.executing ==> queue[k].cloudletId != u.cloudletId
  }

  /** Either step keeps the job table in agreement with the executing
      tasks, when the queued tasks are not running yet. */
  lemma StepKeepsConsistent(m: Manager, vms: seq<Vm>, queue: seq<Task>, reply: string, env: Env, schedule: bool)
    requires Ready(m, vms, queue, env) && Consistent(m) && Waiting(m, queue)
    ensures Consistent((if schedule then SchedulingStep(m, vms, queue, reply, env)
                        else PlacementStep(m, vms, queue, reply, env)).m)
  {
    ReleaseKeepsConsistent(m, env.clock);
    var d := Reply(m, reply, env);
    assert d.m.jobs == ReleaseFinishedTasks(m, env.clock).jobs;
    assert d.m.executing == ReleaseFinishedTasks(m, env.clock).executing;
    assert Consistent(d.m);
    if schedule || |queue| > 0 {
      var state := if schedule then StateWithTasksAndEnv(queue, NotMobile(vms), env.clock)
                   else StateWithTaskAndEnv(queue[0], NotMobile(vms), env.clock);
      var r := Decide(d, vms, queue, state, schedule, env);
      assert r == (if schedule then SchedulingStep(m, vms, queue, reply, env) else PlacementStep(m, vms, queue, reply, env));
      if d.result.Ok? && |d.result.value.action| > 0 && d.result.value.action[0] != -1 {
        var choice := Choose(d.result.value.action, |queue|, |NotMobile(vms)|, schedule);
        if choice.Ok? {
          DecideCommits(d, vms, queue, state, schedule, env);
          CommitKeepsConsistent(d.m, vms, queue, choice.value.0, NotMobile(vms)[choice.value.1],
                                d.result.value.time, state, !schedule, env);
        }
      }
    }
  }
}
