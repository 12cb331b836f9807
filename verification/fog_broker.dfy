/** TSPFogBroker: the gateway's admission state machine.

    The broker keeps the queue of arrived tasks and two flags, whether the
    gateway is idle and whether the last decision found every server busy.
    An arrival, a finished cloudlet, or the gateway turning idle may trigger
    one decision step; the step's outcome is turned into kernel events
    (submissions to datacenters, a deadline notice to the workflow engine,
    the gateway's own idle event), which are returned as records.
 */
module FogBroker {
  import opened Wrappers
  import opened Entities
  import opened JobManager
  import opened EnvHelper
  import opened StrategyAlgorithm
  import opened Placement

  /** Who receives a kernel event. */
  datatype Target = Datacenter(id: int) | WorkflowEngine | Self

  datatype Tag = CloudletSubmit | ThereWereDeadlines | TspGatewayIdle | CloudletReturn | CloudletUpdate

  /** A kernel schedule(...) call: target, delay, tag and payload. */
  datatype Event = Event(target: Target, delay: real, tag: Tag, payload: Option<Task>)

  datatype Broker = Broker(
    m: Manager,
    vms: seq<Vm>,                 // the created VMs
    queue: seq<Task>,             // the cloudlet list waiting for a decision
    submitted: seq<Task>,         // the cloudlet submitted list
    received: seq<Task>,          // the cloudlet received list
    cloudletsSubmitted: int,
    incoming: int,                // quantity_of_incoming_tasks
    gatewayIdle: bool,            // the_gateway_is_idle
    allBusy: bool,                // all_severs_are_busy
    sent: seq<Request>)           // every request sent to the strategy service

  /** A handled event: the broker afterwards and the events it scheduled. */
  datatype Handled = Handled(b: Broker, events: seq<Event>)

  /** The broker's fields at start-up: the gateway idle, no server known to
      be busy, nothing queued or submitted. */
  function NewBroker(m: Manager, vms: seq<Vm>): (b: Broker)
    ensures b.gatewayIdle && !b.allBusy
    ensures b.queue == [] && b.submitted == [] && b.received == [] && b.sent == []
    ensures b.cloudletsSubmitted == 0 && b.incoming == 0
  {
    Broker(m, vms, [], [], [], 0, 0, true, false, [])
  }

  /** Every VM's link is usable: the submission delay is computed for the
      VM found by id, whichever it is. */
  predicate LinksUsable(vms: seq<Vm>, u: Uplink) {
    forall k :: 0 <= k < |vms| ==> LinkUsable(u, vms[k].datacenterId)
  }

  /** What a decision needs of the broker's data. */
  predicate BrokerReady(b: Broker, env: Env) {
    Ready(b.m, b.vms, b.queue, env) && LinksUsable(b.vms, env.uplink)
  }

  /** The counter of submitted cloudlets agrees with the submitted list. */
  predicate CountAgrees(b: Broker) {
    b.cloudletsSubmitted == |b.submitted|
  }

  /** The configured strategy's runSteep: a step from a consistent manager
      whose queued tasks are all registered leaves the manager consistent. */
  function RunSteep(schedule: bool, m: Manager, vms: seq<Vm>, queue: seq<Task>, reply: string, env: Env): (r: Step)
    requires Ready(m, vms, queue, env)
    ensures Consistent(m) && Waiting(m, queue) ==> Consistent(r.m)
    ensures r.m.completedQuantity == m.completedQuantity + |Released(m.executing, env.clock)|
  {
    var r := if schedule then SchedulingStep(m, vms, queue, reply, env) else PlacementStep(m, vms, queue, reply, env);
    assert Consistent(m) && Waiting(m, queue) ==> Consistent(r.m) by {
      if Consistent(m) && Waiting(m, queue) {
        StepKeepsConsistent(m, vms, queue, reply, env, schedule);
      }
    }
    r
  }

  /** The decision time the broker uses: the step's, or 0 when the step
      threw. */
  function DecisionTime(s: Step): (t: real)
    ensures s.result.Fail? ==> t == 0.0
    ensures s.result.Ok? ==> t == s.result.value
  {
    if s.result.Ok? then s.result.value else 0.0
  }

  /** VmList.getById: the first VM with that id, None for null. */
  function VmById(vms: seq<Vm>, id: int): (r: Option<Vm>)
    ensures r.Some? ==> r.value in vms && r.value.id == id
    ensures r.None? <==> forall k :: 0 <= k < |vms| ==> vms[k].id != id
  {
    if |vms| == 0 then None
    else if vms[0].id == id then Some(vms[0])
    else VmById(vms[1..], id)
  }

  /** One CLOUDLET_SUBMIT per scheduled cloudlet, to its VM's datacenter,
      after the upload to that datacenter plus the decision time. A
      cloudlet whose VM is not found dereferences null. */
  function Submissions(scheduled: seq<Task>, vms: seq<Vm>, u: Uplink, decision: real): (r: Result<seq<Event>>)
    requires LinksUsable(vms, u)
    ensures r.Ok? <==> forall k :: 0 <= k < |scheduled| ==> VmById(vms, scheduled[k].vmId).Some?
    ensures r.Ok? ==> |r.value| == |scheduled|
    ensures r.Ok? ==> forall k :: 0 <= k < |scheduled| ==>
      var vm := VmById(vms, scheduled[k].vmId).value;
      r.value[k] == Event(Datacenter(vm.datacenterId),
                          OffloadingTime(u, vm.datacenterId, scheduled[k].storage) + decision,
                          CloudletSubmit, Some(scheduled[k]))
    ensures r.Fail? ==> r.fault == NullReference
  {
    if |scheduled| == 0 then Ok([])
    else
      match VmById(vms, scheduled[0].vmId)
      case None => Fail(NullReference)
      case Some(vm) =>
        assert vm in vms;
        var first := Event(Datacenter(vm.datacenterId),
                           OffloadingTime(u, vm.datacenterId, scheduled[0].storage) + decision,
                           CloudletSubmit, Some(scheduled[0]));
        match Submissions(scheduled[1..], vms, u, decision)
        case Fail(f) => Fail(f)
        case Ok(rest) =>
          assert forall k :: 1 <= k < |scheduled| ==> scheduled[k] == scheduled[1..][k - 1];
          Ok([first] + rest)
  }

  /** List.removeAll(scheduled): every queued cloudlet that was scheduled
      leaves, the others keep their order. */
  function Without(queue: seq<Task>, scheduled: seq<Task>): (r: seq<Task>)
    ensures |r| <= |queue|
    ensures forall t :: t in r <==> t in queue && forall u :: u in scheduled ==> u.cloudletId != t.cloudletId
  {
    if |queue| == 0 then []
    else if exists u :: u in scheduled && u.cloudletId == queue[0].cloudletId then Without(queue[1..], scheduled)
    else [queue[0]] + Without(queue[1..], scheduled)
  }

  // ---------------------------------------------------------------------
  // doTSPDecision

  /** The broker after a step `s` it ran: the scheduled cloudlets are
      submitted, leave the queue and join the submitted list; the gateway
      turns busy for the decision time, after which it announces itself
      idle; a dropped task is announced to the workflow engine at the same
      time. */
  function AfterStep(b: Broker, s: Step, u: Uplink): (r: Result<Handled>)
    requires LinksUsable(s.vms, u)
    ensures r.Ok? <==> forall k :: 0 <= k < |s.scheduled| ==> VmById(s.vms, s.scheduled[k].vmId).Some?
    ensures r.Fail? ==> r.fault == NullReference
    ensures r.Ok? ==>
      var h := r.value;
      && !h.b.gatewayIdle && h.b.allBusy == s.allBusy
      && h.b.m == s.m && h.b.vms == s.vms && h.b.sent == b.sent + s.sent
      && h.b.queue == Without(s.queue, s.scheduled)
      && h.b.submitted == b.submitted + s.scheduled
      && h.b.cloudletsSubmitted == b.cloudletsSubmitted + |s.scheduled|
      && h.b.received == b.received && h.b.incoming == b.incoming
      && |h.events| == |s.scheduled| + (if s.deadlines then 1 else 0) + 1
      && (forall k :: 0 <= k < |s.scheduled| ==>
            h.events[k].tag == CloudletSubmit && h.events[k].payload == Some(s.scheduled[k]))
      && (s.deadlines ==> h.events[|s.scheduled|] == Event(WorkflowEngine, DecisionTime(s), ThereWereDeadlines, None))
      && h.events[|h.events| - 1] == Event(Self, DecisionTime(s), TspGatewayIdle, None)
  {
    var decision := DecisionTime(s);
    match Submissions(s.scheduled, s.vms, u, decision)
    case Fail(f) => Fail(f)
    case Ok(submits) =>
      var notice := if s.deadlines then [Event(WorkflowEngine, decision, ThereWereDeadlines, None)] else [];
      var b' := b.(m := s.m, vms := s.vms, queue := Without(s.queue, s.scheduled),
                   submitted := b.submitted + s.scheduled,
                   cloudletsSubmitted := b.cloudletsSubmitted + |s.scheduled|,
                   gatewayIdle := false, allBusy := s.allBusy, sent := b.sent + s.sent);
      Ok(Handled(b', submits + notice + [Event(Self, decision, TspGatewayIdle, None)]))
  }

  /** doTSPDecision: nothing on an empty queue; otherwise one step of the
      configured strategy, whose outcome the broker then acts on. A step
      that threw still has its scheduled cloudlets submitted, with a
      decision time of 0. */
  function DoTSPDecision(b: Broker, reply: string, env: Env, schedule: bool): (r: Result<Handled>)
    requires BrokerReady(b, env)
    ensures |b.queue| == 0 ==> r == Ok(Handled(b, []))
    ensures |b.queue| > 0 ==> LinksUsable(RunSteep(schedule, b.m, b.vms, b.queue, reply, env).vms, env.uplink)
    ensures |b.queue| > 0 ==> r == AfterStep(b, RunSteep(schedule, b.m, b.vms, b.queue, reply, env), env.uplink)
  {
    if |b.queue| == 0 then Ok(Handled(b, []))
    else
      StepKeepsLinks(b.m, b.vms, b.queue, reply, env, schedule);
      AfterStep(b, RunSteep(schedule, b.m, b.vms, b.queue, reply, env), env.uplink)
  }

  /** Marking a VM busy keeps every VM's datacenter. */
  lemma SetBusyKeepsLinks(vms: seq<Vm>, id: int, u: Uplink)
    requires LinksUsable(vms, u)
    ensures LinksUsable(SetBusy(vms, id), u)
  {
    var r := SetBusy(vms, id);
    forall k | 0 <= k < |r|
      ensures LinkUsable(u, r[k].datacenterId)
    {
      assert r[k].(idle := vms[k].idle) == vms[k];
    }
  }

  /** A step only ever marks a VM busy. */
  lemma StepKeepsLinks(m: Manager, vms: seq<Vm>, queue: seq<Task>, reply: string, env: Env, schedule: bool)
    requires Ready(m, vms, queue, env) && LinksUsable(vms, env.uplink)
    ensures LinksUsable(RunSteep(schedule, m, vms, queue, reply, env).vms, env.uplink)
  {
    var s := RunSteep(schedule, m, vms, queue, reply, env);
    assert s.vms == vms || exists id :: s.vms == SetBusy(vms, id) by {
      StepVms(m, vms, queue, reply, env, schedule);
    }
    if s.vms != vms {
      var id :| s.vms == SetBusy(vms, id);
      SetBusyKeepsLinks(vms, id, env.uplink);
    }
  }

  /** A step leaves the VM list as it was or marks one id busy. */
  lemma StepVms(m: Manager, vms: seq<Vm>, queue: seq<Task>, reply: string, env: Env, schedule: bool)
    requires Ready(m, vms, queue, env)
    ensures var s := RunSteep(schedule, m, vms, queue, reply, env);
      s.vms == vms || exists id :: s.vms == SetBusy(vms, id)
  {
    if schedule || |queue| > 0 {
      var state := if schedule then StateWithTasksAndEnv(queue, NotMobile(vms), env.clock)
                   else StateWithTaskAndEnv(queue[0], NotMobile(vms), env.clock);
      var d := Reply(m, reply, env);
      assert RunSteep(schedule, m, vms, queue, reply, env) == Decide(d, vms, queue, state, schedule, env);
      if d.result.Ok? && |d.result.value.action| > 0 && d.result.value.action[0] != -1 {
        var choice := Choose(d.result.value.action, |queue|, |NotMobile(vms)|, schedule);
        if choice.Ok? {
          DecideDeadlineTest(d, vms, queue, state, schedule, env);
        }
      }
    }
  }

  // ---------------------------------------------------------------------
  // The events

  /** JOB_SUBMIT: the task joins the queue and one fewer task is still to
      come; a decision runs only if the gateway is idle and some server is
      idle. */
  function JobSubmit(b: Broker, t: Task, reply: string, env: Env, schedule: bool): (r: Result<Handled>)
    requires BrokerReady(b, env) && t.deadline != t.arrival
    ensures var b1 := b.(queue := b.queue + [t], incoming := b.incoming - 1);
      && (b.gatewayIdle && ThereAreServersInIdle(b.vms) ==> r == DoTSPDecision(b1, reply, env, schedule))
      && (!(b.gatewayIdle && ThereAreServersInIdle(b.vms)) ==> r == Ok(Handled(b1, [])))
  {
    var b1 := b.(queue := b.queue + [t], incoming := b.incoming - 1);
    assert BrokerReady(b1, env);
    if b.gatewayIdle && ThereAreServersInIdle(b.vms) then DoTSPDecision(b1, reply, env, schedule)
    else Ok(Handled(b1, []))
  }

  /** TSP_GATEWAY_IDLE: the gateway is idle again; unless the last decision
      found every server busy, the next decision runs at once. */
  function GatewayFree(b: Broker, reply: string, env: Env, schedule: bool): (r: Result<Handled>)
    requires BrokerReady(b, env)
    ensures b.allBusy ==> r == Ok(Handled(b.(gatewayIdle := true), []))
    ensures !b.allBusy ==> r == DoTSPDecision(b.(gatewayIdle := true), reply, env, schedule)
  {
    var b1 := b.(gatewayIdle := true);
    if b.allBusy then Ok(Handled(b1, [])) else DoTSPDecision(b1, reply, env, schedule)
  }

  /** CLOUDLET_UPDATE: a decision runs only if the gateway is idle. */
  function CloudletUpdated(b: Broker, reply: string, env: Env, schedule: bool): (r: Result<Handled>)
    requires BrokerReady(b, env)
    ensures b.gatewayIdle ==> r == DoTSPDecision(b, reply, env, schedule)
    ensures !b.gatewayIdle ==> r == Ok(Handled(b, []))
  {
    if b.gatewayIdle then DoTSPDecision(b, reply, env, schedule) else Ok(Handled(b, []))
  }

  /** The position of the first cloudlet with that id. */
  function IndexOfCloudlet(ts: seq<Task>, id: int): (r: Option<nat>)
    ensures r.Some? ==> r.value < |ts| && ts[r.value].cloudletId == id
    ensures r.Some? ==> forall k :: 0 <= k < r.value ==> ts[k].cloudletId != id
    ensures r.None? <==> forall k :: 0 <= k < |ts| ==> ts[k].cloudletId != id
  {
    if |ts| == 0 then None
    else if ts[0].cloudletId == id then Some(0)
    else match IndexOfCloudlet(ts[1..], id)
      case None => None
      case Some(k) => Some(k + 1)
  }

  /** List.remove(Object): the first occurrence leaves; an absent cloudlet
      changes nothing. */
  function RemoveCloudlet(ts: seq<Task>, c: Task): (r: seq<Task>)
    ensures IndexOfCloudlet(ts, c.cloudletId).None? ==> r == ts
    ensures IndexOfCloudlet(ts, c.cloudletId).Some? ==> |r| == |ts| - 1
    ensures forall t :: t in r ==> t in ts
  {
    match IndexOfCloudlet(ts, c.cloudletId)
    case None => ts
    case Some(k) => RemoveAt(ts, k)
  }

  /** CLOUDLET_RETURN: the cloudlet moves from the submitted list to the
      received one; the VM at the list position given by its vmId turns
      idle; the workflow engine is told at once and an update is scheduled
      for this broker with no delay. The returned cloudlet is the task
      object the gateway keeps executing, so its finish time reaches the
      manager's executing list. A vmId outside the list throws. */
  function CloudletReturned(b: Broker, c: Task): (r: Result<Handled>)
    ensures r.Fail? <==> !(0 <= c.vmId < |b.vms|)
    ensures r.Fail? ==> r.fault == IndexOutOfBounds
    ensures r.Ok? ==>
      && r.value.b.received == b.received + [c]
      && r.value.b.submitted == RemoveCloudlet(b.submitted, c)
      && r.value.b.cloudletsSubmitted == b.cloudletsSubmitted - 1
      && |r.value.b.vms| == |b.vms| && r.value.b.vms[c.vmId].idle
      && r.value.b.vms[c.vmId].(idle := b.vms[c.vmId].idle) == b.vms[c.vmId]
      && (forall k :: 0 <= k < |b.vms| && k != c.vmId ==> r.value.b.vms[k] == b.vms[k])
      && r.value.b.queue == b.queue && r.value.b.gatewayIdle == b.gatewayIdle && r.value.b.allBusy == b.allBusy
      && r.value.b.m == RecordFinish(b.m, c)
      && r.value.events == [Event(WorkflowEngine, 0.0, CloudletReturn, Some(c)), Event(Self, 0.0, CloudletUpdate, None)]
  {
    if !(0 <= c.vmId < |b.vms|) then Fail(IndexOutOfBounds)
    else
      var b' := b.(received := b.received + [c],
                   submitted := RemoveCloudlet(b.submitted, c),
                   vms := b.vms[c.vmId := b.vms[c.vmId].(idle := true)],
                   m := RecordFinish(b.m, c),
                   cloudletsSubmitted := b.cloudletsSubmitted - 1);
      Ok(Handled(b', [Event(WorkflowEngine, 0.0, CloudletReturn, Some(c)), Event(Self, 0.0, CloudletUpdate, None)]))
  }

  // ---------------------------------------------------------------------
  // Properties

  /** A decision, whatever its outcome, keeps the submitted counter in
      agreement with the submitted list. */
  lemma DecisionKeepsCount(b: Broker, reply: string, env: Env, schedule: bool)
    requires BrokerReady(b, env) && CountAgrees(b)
    ensures var r := DoTSPDecision(b, reply, env, schedule);
      r.Ok? ==> CountAgrees(r.value.b)
  {
  }

  /** So does an arrival, which may trigger one. */
  lemma SubmitKeepsCount(b: Broker, t: Task, reply: string, env: Env, schedule: bool)
    requires BrokerReady(b, env) && CountAgrees(b) && t.deadline != t.arrival
    ensures var r := JobSubmit(b, t, reply, env, schedule); r.Ok? ==> CountAgrees(r.value.b)
  {
    var b1 := b.(queue := b.queue + [t], incoming := b.incoming - 1);
    assert BrokerReady(b1, env);
    DecisionKeepsCount(b1, reply, env, schedule);
  }

  /** So does the gateway turning idle. */
  lemma FreeKeepsCount(b: Broker, reply: string, env: Env, schedule: bool)
    requires BrokerReady(b, env) && CountAgrees(b)
    ensures var r := GatewayFree(b, reply, env, schedule); r.Ok? ==> CountAgrees(r.value.b)
  {
    DecisionKeepsCount(b.(gatewayIdle := true), reply, env, schedule);
  }

  /** So does an update. */
  lemma UpdateKeepsCount(b: Broker, reply: string, env: Env, schedule: bool)
    requires BrokerReady(b, env) && CountAgrees(b)
    ensures var r := CloudletUpdated(b, reply, env, schedule); r.Ok? ==> CountAgrees(r.value.b)
  {
    DecisionKeepsCount(b, reply, env, schedule);
  }

  /** A returned cloudlet keeps the counter in agreement exactly when it was
      among the submitted ones. */
  lemma ReturnKeepsCount(b: Broker, c: Task)
    requires CountAgrees(b) && 0 <= c.vmId < |b.vms|
    ensures CountAgrees(CloudletReturned(b, c).value.b) <==> IndexOfCloudlet(b.submitted, c.cloudletId).Some?
  {
  }

  /** While the gateway is busy, arrivals and updates only queue: no
      decision runs and no event is scheduled. */
  lemma BusyGatewayWaits(b: Broker, t: Task, reply: string, env: Env, schedule: bool)
    requires BrokerReady(b, env) && t.deadline != t.arrival && !b.gatewayIdle
    ensures JobSubmit(b, t, reply, env, schedule) == Ok(Handled(b.(queue := b.queue + [t], incoming := b.incoming - 1), []))
    ensures CloudletUpdated(b, reply, env, schedule) == Ok(Handled(b, []))
  {
  }

  /** Any decision on a non-empty queue leaves the gateway busy and ends
      with its own idle event at the decision time, also when every server
      was busy; the deadline notice is scheduled exactly when the step
      dropped a task. */
  lemma DecisionAnnouncesIdle(b: Broker, reply: string, env: Env, schedule: bool)
    requires BrokerReady(b, env) && |b.queue| > 0
    requires DoTSPDecision(b, reply, env, schedule).Ok?
    ensures var h := DoTSPDecision(b, reply, env, schedule).value;
      var s := RunSteep(schedule, b.m, b.vms, b.queue, reply, env);
      && !h.b.gatewayIdle
      && h.events[|h.events| - 1] == Event(Self, DecisionTime(s), TspGatewayIdle, None)
      && ((exists k :: 0 <= k < |h.events| && h.events[k].tag == ThereWereDeadlines) <==> s.deadlines)
  {
    var h := DoTSPDecision(b, reply, env, schedule).value;
    var s := RunSteep(schedule, b.m, b.vms, b.queue, reply, env);
    if s.deadlines {
      assert h.events[|s.scheduled|].tag == ThereWereDeadlines;
    } else {
      assert |h.events| == |s.scheduled| + 1;
      forall k | 0 <= k < |h.events|
        ensures h.events[k].tag != ThereWereDeadlines
      {
        if k < |s.scheduled| {
          assert h.events[k].tag == CloudletSubmit;
        }
      }
    }
  }

  /** A gateway that turns idle after a decision that found every server
      busy stays idle and waits: nothing runs until an arrival or a
      finished cloudlet. */
  lemma AllBusyWaits(b: Broker, reply: string, env: Env, schedule: bool)
    requires BrokerReady(b, env) && b.allBusy
    ensures GatewayFree(b, reply, env, schedule).Ok?
    ensures GatewayFree(b, reply, env, schedule).value.b.gatewayIdle
    ensures GatewayFree(b, reply, env, schedule).value.events == []
  {
  }
}
