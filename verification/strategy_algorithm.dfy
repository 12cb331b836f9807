/** TSPBaseStrategyAlgorithm: what both gateway strategies share.

    The VMs of the topology split into the gateway (its datacenter's name
    starts with "m", for mobile) and the fog and cloud servers a task can be
    placed on. The reward of a placement weighs the task's priority against
    the share of its deadline window the run takes.
 */
module StrategyAlgorithm {
  import opened Wrappers
  import opened Entities
  import opened JobManager

  /** String.startsWith("m") on the datacenter name. */
  predicate OnGateway(v: Vm) {
    |v.datacenterName| > 0 && v.datacenterName[0] == 'm'
  }

  /** getNotMobileVmList: the VMs off the gateway, in list order. */
  function NotMobile(vms: seq<Vm>): (r: seq<Vm>)
    ensures |r| <= |vms|
    ensures forall v :: v in r <==> v in vms && !OnGateway(v)
  {
    if |vms| == 0 then []
    else if OnGateway(vms[0]) then NotMobile(vms[1..])
    else [vms[0]] + NotMobile(vms[1..])
  }

  /** Filtering keeps the relative order: the kept VMs of a prefix come
      first. */
  lemma {:induction false} NotMobileAppend(a: seq<Vm>, b: seq<Vm>)
    ensures NotMobile(a + b) == NotMobile(a) + NotMobile(b)
    decreases |a|
  {
    if |a| > 0 {
      var ab := a + b;
      assert ab[0] == a[0] && ab[1..] == a[1..] + b;
      NotMobileAppend(a[1..], b);
      if !OnGateway(a[0]) {
        assert NotMobile(ab) == [a[0]] + (NotMobile(a[1..]) + NotMobile(b));
      }
    } else {
      assert a + b == b;
    }
  }

  /** thereAreServersInIdle: true exactly when some VM off the gateway is
      idle. */
  function ThereAreServersInIdle(vms: seq<Vm>): (b: bool)
    ensures b <==> exists v :: v in vms && !OnGateway(v) && v.idle
  {
    var servers := NotMobile(vms);
    exists k :: 0 <= k < |servers| && servers[k].idle
  }

  /** getGatewayVm: the first VM on the gateway, None for Java's null. */
  function GatewayVm(vms: seq<Vm>): (r: Option<Vm>)
    ensures r.Some? ==> r.value in vms && OnGateway(r.value)
    ensures r.None? <==> forall v :: v in vms ==> !OnGateway(v)
  {
    if |vms| == 0 then None
    else if OnGateway(vms[0]) then Some(vms[0])
    else GatewayVm(vms[1..])
  }

  /** The gateway found is the first one: every VM before it is a server. */
  lemma {:induction false} GatewayVmIsFirst(vms: seq<Vm>, k: nat)
    requires k < |vms| && OnGateway(vms[k])
    requires forall i :: 0 <= i < k ==> !OnGateway(vms[i])
    ensures GatewayVm(vms) == Some(vms[k])
    decreases k
  {
    if k > 0 {
      GatewayVmIsFirst(vms[1..], k - 1);
    }
  }

  /** theGatewayIsInIdle: dereferencing the missing gateway throws. */
  function TheGatewayIsInIdle(vms: seq<Vm>): (r: Result<bool>)
    ensures r.Fail? <==> GatewayVm(vms).None?
    ensures r.Ok? ==> r.value == GatewayVm(vms).value.idle
  {
    match GatewayVm(vms)
    case None => Fail(NullReference)
    case Some(g) => Ok(g.idle)
  }

  // ---------------------------------------------------------------------
  // getReward

  /** Math.min on doubles. */
  function Min(a: real, b: real): real {
    if a <= b then a else b
  }

  /** The reward formula. With w = priority / 5 and window = deadline -
      arrival: a missed deadline costs w times the run's share of the window,
      capped at 1; a met one earns w times the share of the window left.
      A task of priority 0 carries no reward; otherwise, over a positive
      window and a non-negative run, a missed deadline is never rewarded and
      a deadline met within the window is never penalised. */
  function RewardValue(t: Task, exceeded: bool, running: real): (r: real)
    requires t.deadline != t.arrival
    ensures t.priority == 0 ==> r == 0.0
    ensures t.priority >= 0 && t.deadline > t.arrival && running >= 0.0 && exceeded ==> r <= 0.0
    ensures t.priority >= 0 && t.deadline > t.arrival && 0.0 <= running <= t.deadline - t.arrival && !exceeded ==> r >= 0.0
  {
    var window := t.deadline - t.arrival;
    var weight := t.priority as real / 5.0;
    var share := running / window;
    var r := if exceeded then -1.0 * weight * Min(1.0, share) else weight * (1.0 - share);
    assert t.priority >= 0 && window > 0.0 && running >= 0.0 ==>
      (exceeded ==> r <= 0.0) && (!exceeded && running <= window ==> r >= 0.0) by {
      if t.priority >= 0 && window > 0.0 && running >= 0.0 {
        ShareBounds(running, window);
        ScaleWithin(weight, Min(1.0, share));
        if running <= window {
          ScaleWithin(weight, 1.0 - share);
        }
      }
    }
    r
  }

  /** With a non-negative priority, a positive window and a non-negative
      run, a missed deadline's reward lies in [-p/5, 0]; a met deadline's
      reward lies in [0, p/5] when the run fits in the window. */
  lemma RewardBounds(t: Task, exceeded: bool, running: real)
    requires t.priority >= 0 && t.deadline > t.arrival && running >= 0.0
    ensures exceeded ==> -(t.priority as real / 5.0) <= RewardValue(t, exceeded, running) <= 0.0
    ensures !exceeded && running <= t.deadline - t.arrival ==>
      0.0 <= RewardValue(t, exceeded, running) <= t.priority as real / 5.0
  {
    var window := t.deadline - t.arrival;
    var weight := t.priority as real / 5.0;
    var share := running / window;
    ShareBounds(running, window);
    ScaleWithin(weight, Min(1.0, share));
    if running <= window {
      ScaleWithin(weight, 1.0 - share);
    }
  }

  /** getReward: the reward, which is also appended to the current
      episode's reward history. The decision time is accepted and ignored. */
  function GetReward(m: Manager, t: Task, exceeded: bool, decisionTime: real, running: real): (r: (real, Manager))
    requires t.deadline != t.arrival && ValidEpisode(m)
    ensures r.0 == RewardValue(t, exceeded, running)
    ensures r.1 == SaveReward(m, r.0)
    ensures ValidEpisode(r.1)
  {
    var reward := RewardValue(t, exceeded, running);
    (reward, SaveReward(m, reward))
  }

  /** The reward does not depend on the decision time. */
  lemma RewardIgnoresDecisionTime(m: Manager, t: Task, exceeded: bool, d1: real, d2: real, running: real)
    requires t.deadline != t.arrival && ValidEpisode(m)
    ensures GetReward(m, t, exceeded, d1, running) == GetReward(m, t, exceeded, d2, running)
  {
  }

  /** A met deadline earns the weighted share of the window left; a missed
      one costs the weighted share used, capped at the whole window. */
  lemma RewardMeaning(t: Task, exceeded: bool, running: real)
    requires t.deadline > t.arrival
    ensures !exceeded ==>
      RewardValue(t, exceeded, running) * 5.0 * (t.deadline - t.arrival)
        == t.priority as real * ((t.deadline - t.arrival) - running)
    ensures exceeded && running >= t.deadline - t.arrival ==>
      RewardValue(t, exceeded, running) == -(t.priority as real / 5.0)
    ensures exceeded && running <= t.deadline - t.arrival ==>
      RewardValue(t, exceeded, running) * 5.0 * (t.deadline - t.arrival) == -(t.priority as real * running)
  {
    var window := t.deadline - t.arrival;
    var share := running / window;
    assert share * window == running;
    if exceeded && running >= window {
      ShareBounds(running, window);
    }
  }

  /** A share of a positive window: non-negative for a non-negative run, at
      most 1 exactly up to the window. */
  lemma ShareBounds(running: real, window: real)
    requires window > 0.0 && running >= 0.0
    ensures running / window >= 0.0
    ensures running <= window ==> running / window <= 1.0
    ensures running >= window ==> running / window >= 1.0
  {
  }

  /** A non-negative weight times a fraction in [0, 1] lies in [0, weight]. */
  lemma ScaleWithin(w: real, f: real)
    requires w >= 0.0 && 0.0 <= f <= 1.0
    ensures 0.0 <= w * f <= w
  {
  }

  /** Each reward adds exactly one entry to the reward history. */
  lemma GetRewardRecordsOnce(m: Manager, t: Task, exceeded: bool, decisionTime: real, running: real)
    requires t.deadline != t.arrival && ValidEpisode(m)
    ensures |AllRewards(GetReward(m, t, exceeded, decisionTime, running).1.episodes)| == |AllRewards(m.episodes)| + 1
  {
    SaveRewardGrowsHistory(m, RewardValue(t, exceeded, running));
  }
}
