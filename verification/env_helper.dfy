/** TSPEnvHelper: what the gateway sends to the agent and how it reads the
    agent's reply.

    - the state vector: task features, the simulation clock and four
      features per non-gateway server;
    - the decision reply "T,Cdk" (or "T,Cdt,s"): the gateway's computation
      time T and CPU percent C, then the action;
    - the upload time of a task to a fog or cloud device.
 */
module EnvHelper {
  import opened Wrappers
  import opened JavaText
  import opened Entities
  import opened JobManager

  // ---------------------------------------------------------------------
  // State vectors

  /** A task's six features: MI, RAM, storage, arrival, final deadline and
      priority. */
  function TaskFeatures(t: Task): (f: seq<real>)
    ensures |f| == 6
  {
    [t.mi, t.ram, t.storage, t.arrival, t.deadline, t.priority as real]
  }

  /** A server's four features: MIPS, RAM, size and the busy flag, which is
      0.0 exactly when the VM is idle. */
  function NodeFeatures(v: Vm): (f: seq<real>)
    ensures |f| == 4
    ensures f[3] == 0.0 <==> v.idle
    ensures f[3] == 0.0 || f[3] == 1.0
  {
    [v.mips, v.ram, v.size, if v.idle then 0.0 else 1.0]
  }

  function TasksFeatures(ts: seq<Task>): (f: seq<real>)
    ensures |f| == 6 * |ts|
    ensures forall i | 0 <= i < |ts| :: f[6 * i .. 6 * i + 6] == TaskFeatures(ts[i])
  {
    if |ts| == 0 then []
    else
      var rest := TasksFeatures(ts[1..]);
      var f := TaskFeatures(ts[0]) + rest;
      assert forall i | 1 <= i < |ts| :: f[6 * i .. 6 * i + 6] == rest[6 * (i - 1) .. 6 * (i - 1) + 6];
      f
  }

  function NodesFeatures(vms: seq<Vm>): (f: seq<real>)
    ensures |f| == 4 * |vms|
    ensures forall i | 0 <= i < |vms| :: f[4 * i .. 4 * i + 4] == NodeFeatures(vms[i])
  {
    if |vms| == 0 then []
    else
      var rest := NodesFeatures(vms[1..]);
      var f := NodeFeatures(vms[0]) + rest;
      assert forall i | 1 <= i < |vms| :: f[4 * i .. 4 * i + 4] == rest[4 * (i - 1) .. 4 * (i - 1) + 4];
      f
  }

  /** parseStateWithTaskAndEnv: one task, the clock at position 6, server i
      at positions 7 + 4i .. 7 + 4i + 3. */
  function StateWithTaskAndEnv(t: Task, vms: seq<Vm>, clock: real): (s: seq<real>)
    ensures |s| == 7 + 4 * |vms|
    ensures s[..6] == TaskFeatures(t) && s[6] == clock
    ensures forall i | 0 <= i < |vms| :: s[7 + 4 * i .. 7 + 4 * i + 4] == NodeFeatures(vms[i])
    ensures forall i | 0 <= i < |vms| :: s[7 + 4 * i + 3] == 0.0 <==> vms[i].idle
  {
    var nodes := NodesFeatures(vms);
    var s := TaskFeatures(t) + [clock] + nodes;
    assert forall i | 0 <= i < |vms| :: s[7 + 4 * i .. 7 + 4 * i + 4] == nodes[4 * i .. 4 * i + 4];
    s
  }

  /** parseStateWithTasksAndEnv: task k at positions 6k .. 6k + 5, the clock
      at 6M, server i at 6M + 1 + 4i .. 6M + 1 + 4i + 3. */
  function StateWithTasksAndEnv(ts: seq<Task>, vms: seq<Vm>, clock: real): (s: seq<real>)
    ensures |s| == 6 * |ts| + 1 + 4 * |vms|
    ensures forall k | 0 <= k < |ts| :: s[6 * k .. 6 * k + 6] == TaskFeatures(ts[k])
    ensures s[6 * |ts|] == clock
    ensures forall i | 0 <= i < |vms| ::
      s[6 * |ts| + 1 + 4 * i .. 6 * |ts| + 1 + 4 * i + 4] == NodeFeatures(vms[i])
  {
    var tasks := TasksFeatures(ts);
    var nodes := NodesFeatures(vms);
    var s := tasks + [clock] + nodes;
    assert forall k | 0 <= k < |ts| :: s[6 * k .. 6 * k + 6] == tasks[6 * k .. 6 * k + 6];
    assert forall i | 0 <= i < |vms| ::
      s[6 * |ts| + 1 + 4 * i .. 6 * |ts| + 1 + 4 * i + 4] == nodes[4 * i .. 4 * i + 4];
    s
  }

  /** With a single task both layouts coincide. */
  lemma SingleTaskLayout(t: Task, vms: seq<Vm>, clock: real)
    ensures StateWithTasksAndEnv([t], vms, clock) == StateWithTaskAndEnv(t, vms, clock)
  {
    var a := StateWithTasksAndEnv([t], vms, clock);
    var b := StateWithTaskAndEnv(t, vms, clock);
    assert a[0..6] == b[..6];
    forall k | 7 <= k < |a|
      ensures a[k] == b[k]
    {
      var i := (k - 7) / 4;
      assert a[7 + 4 * i .. 7 + 4 * i + 4][k - 7 - 4 * i] == b[7 + 4 * i .. 7 + 4 * i + 4][k - 7 - 4 * i];
    }
  }

  // ---------------------------------------------------------------------
  // Integer arrays

  /** parseStrArrayToIntArray: split on ',' and parse every piece as is. */
  function ParseIntArray(s: string): (r: Result<seq<int>>)
    ensures r.Ok? ==> |r.value| == |JavaSplit(s, ",")|
    ensures r.Ok? ==> forall k :: 0 <= k < |r.value| ==> Int32(r.value[k])
  {
    ParseIntList(JavaSplit(s, ","))
  }

  /** Every non-empty array of 32-bit integers, written comma-separated,
      parses back. */
  lemma ParseIntArrayRoundTrip(a: seq<int>)
    requires |a| > 0 && forall k :: 0 <= k < |a| ==> Int32(a[k])
    ensures ParseIntArray(FormatInts(a)) == Ok(a)
  {
    FormatIntsRoundTrip(a);
  }

  /** The action pieces of a reply are trimmed before parsing. */
  function ParseTrimmedInts(tokens: seq<string>): (r: Result<seq<int>>)
    ensures r.Ok? ==> |r.value| == |tokens|
    ensures r.Ok? ==> forall k :: 0 <= k < |tokens| ==> ParseInt(Trim(tokens[k])) == Ok(r.value[k])
  {
    if |tokens| == 0 then Ok([])
    else
      var head :- ParseInt(Trim(tokens[0]));
      var tail :- ParseTrimmedInts(tokens[1..]);
      Ok([head] + tail)
  }

  /** Integer text has nothing for String.trim to remove, so a trimmed
      32-bit integer text parses back. */
  lemma IntTextParsesTrimmed(n: int)
    requires Int32(n)
    ensures ParseInt(Trim(IntToText(n))) == Ok(n)
  {
    var t := IntToText(n);
    assert t[0] == '-' || IsDigit(t[0]);
    TrimIdentity(t);
    ParseIntRoundTrip(n);
  }

  lemma ParseTrimmedIntsRoundTrip(a: seq<int>)
    requires forall k :: 0 <= k < |a| ==> Int32(a[k])
    ensures ParseTrimmedInts(IntTexts(a)) == Ok(a)
  {
    var tokens := IntTexts(a);
    forall k | 0 <= k < |a|
      ensures ParseInt(Trim(tokens[k])) == Ok(a[k])
    {
      IntTextParsesTrimmed(a[k]);
    }
    ParseTrimmedIntsOf(tokens, a);
  }

  /** Tokens that each read as the matching number read as the list. */
  lemma {:induction false} ParseTrimmedIntsOf(tokens: seq<string>, a: seq<int>)
    requires |tokens| == |a|
    requires forall k :: 0 <= k < |a| ==> ParseInt(Trim(tokens[k])) == Ok(a[k])
    ensures ParseTrimmedInts(tokens) == Ok(a)
    decreases |a|
  {
    if |a| > 0 {
      assert [a[0]] + a[1..] == a;
      TrimmedTail(tokens, a);
      ParseTrimmedIntsOf(tokens[1..], a[1..]);
      ParseTrimmedIntsCons(tokens, a[0], a[1..]);
    }
  }

  /** The first token reads as the first number, and the rest as the rest. */
  lemma TrimmedTail(tokens: seq<string>, a: seq<int>)
    requires |tokens| == |a| > 0
    requires forall k :: 0 <= k < |a| ==> ParseInt(Trim(tokens[k])) == Ok(a[k])
    ensures ParseInt(Trim(tokens[0])) == Ok(a[0])
    ensures forall k :: 0 <= k < |a| - 1 ==> ParseInt(Trim(tokens[1..][k])) == Ok(a[1..][k])
  {
    forall k | 0 <= k < |a| - 1
      ensures ParseInt(Trim(tokens[1..][k])) == Ok(a[1..][k])
    {
      assert tokens[1..][k] == tokens[k + 1] && a[1..][k] == a[k + 1];
    }
  }

  lemma ParseTrimmedIntsCons(tokens: seq<string>, x: int, xs: seq<int>)
    requires |tokens| > 0
    requires ParseInt(Trim(tokens[0])) == Ok(x) && ParseTrimmedInts(tokens[1..]) == Ok(xs)
    ensures ParseTrimmedInts(tokens) == Ok([x] + xs)
  {
  }

  // ---------------------------------------------------------------------
  // The decision reply

  /** The outcome of reading a reply: the manager (with the gateway sample
      registered once the cost part has been read), the sample registered if
      any, and the decision or the exception that interrupted the reading. */
  datatype Decoded = Decoded(m: Manager, sample: Option<Sample>, result: Result<DecisionResult>)

  /** The cost part "T,C" as read: the measured computation time (0 unless
      the gateway's own time is taken into account) and the CPU percent. */
  function ParseCost(cost: seq<string>, considerGatewayTime: bool): (r: Result<(real, real)>)
    ensures r.Ok? ==> |cost| >= 2 && ParseDouble(cost[1]) == Ok(r.value.1)
    ensures r.Ok? && considerGatewayTime ==> ParseDouble(cost[0]) == Ok(r.value.0)
    ensures r.Ok? && !considerGatewayTime ==> r.value.0 == 0.0
    ensures |cost| < 2 && (!considerGatewayTime || |cost| == 0) ==> r == Fail(IndexOutOfBounds)
  {
    if considerGatewayTime && |cost| == 0 then Fail(IndexOutOfBounds)
    else
      var time := if considerGatewayTime then ParseDouble(cost[0]) else Ok(0.0);
      if time.Fail? then Fail(time.fault)
      else if |cost| < 2 then Fail(IndexOutOfBounds)
      else
        var cpu := ParseDouble(cost[1]);
        if cpu.Fail? then Fail(cpu.fault)
        else Ok((time.value, cpu.value))
  }

  lemma ZeroComputationTime(m: Manager)
    requires m.simMips != 0.0
    ensures ParseComputationTime(m, 0.0) == 0.0
  {
    assert ParseComputationTime(m, 0.0) * m.simMips == 0.0;
  }

  /** parseStrArrayToTSPDecisionResult: split on 'd'; read the cost part and
      register the gateway sample at the current clock; then split the
      action part on ',' and parse each trimmed piece. An exception after
      the registration leaves the sample registered. */
  function ParseDecision(m: Manager, text: string, considerGatewayTime: bool, clock: real): (r: Decoded)
    requires m.simMips != 0.0
    ensures r.sample.None? ==> r.m == m && r.result.Fail?
    ensures r.sample.Some? ==>
      && ValidEpisode(m)
      && r.sample.value.timestamp == clock
      && r.m == RegisterGatewayBusyTimes(m, clock, r.sample.value.computationTime, r.sample.value.cpuPercent)
    ensures r.sample.Some? && !considerGatewayTime ==> r.sample.value.computationTime == 0.0
    ensures r.result.Ok? ==> r.sample.Some? && r.result.value.time == r.sample.value.computationTime
    ensures r.result.Ok? ==> forall k :: 0 <= k < |r.result.value.action| ==> Int32(r.result.value.action[k])
    ensures IndexOf(text, "d").None? ==> r.result.Fail?
    ensures !ValidEpisode(m) ==> r.m == m && r.result.Fail?
    ensures r.sample.Some? <==> ValidEpisode(m) && CostPart(text, considerGatewayTime).Ok?
    ensures r.sample.Some? ==>
      var cost := CostPart(text, considerGatewayTime).value;
      r.sample.value == Sample(clock, ParseComputationTime(m, cost.0), cost.1)
    ensures r.result.Ok? <==> r.sample.Some? && ParseAction(JavaSplit(text, "d")).Ok?
    ensures r.result.Ok? ==> r.result.value.action == ParseAction(JavaSplit(text, "d")).value
  {
    var parts := JavaSplit(text, "d");
    match CostPart(text, considerGatewayTime)
      case Fail(f) => Decoded(m, None, Fail(f))
      case Ok(cost) =>
        if !ValidEpisode(m) then Decoded(m, None, Fail(NullReference))
        else
          var time := ParseComputationTime(m, cost.0);
          assert !considerGatewayTime ==> time == 0.0 by {
            if !considerGatewayTime {
              ZeroComputationTime(m);
            }
          }
          ReadAction(m, parts, time, cost.1, clock)
  }

  /** The cost part of a reply: the first 'd' piece split on ','. */
  function CostPart(text: string, considerGatewayTime: bool): Result<(real, real)>
  {
    var parts := JavaSplit(text, "d");
    if |parts| == 0 then Fail(IndexOutOfBounds) else ParseCost(JavaSplit(parts[0], ","), considerGatewayTime)
  }

  /** The rest of parseStrArrayToTSPDecisionResult once the cost part is
      read: the gateway sample is registered, then the action part is read. */
  function ReadAction(m: Manager, parts: seq<string>, time: real, cpu: real, clock: real): (r: Decoded)
    requires ValidEpisode(m)
    ensures r.sample == Some(Sample(clock, time, cpu))
    ensures r.m == RegisterGatewayBusyTimes(m, clock, time, cpu)
    ensures r.result.Ok? ==> r.result.value.time == time
    ensures r.result.Ok? <==> ParseAction(parts).Ok?
    ensures r.result.Ok? ==> r.result.value.action == ParseAction(parts).value
    ensures r.result.Ok? ==> forall k :: 0 <= k < |r.result.value.action| ==> Int32(r.result.value.action[k])
    ensures |parts| >= 2 && ParseTrimmedInts(JavaSplit(parts[1], ",")).Ok? ==>
      r.result == Ok(DecisionResult(time, ParseTrimmedInts(JavaSplit(parts[1], ",")).value))
  {
    var m' := RegisterGatewayBusyTimes(m, clock, time, cpu);
    match ParseAction(parts)
    case Fail(f) => Decoded(m', Some(Sample(clock, time, cpu)), Fail(f))
    case Ok(action) => Decoded(m', Some(Sample(clock, time, cpu)), Ok(DecisionResult(time, action)))
  }

  /** The action part: the second 'd' piece, its comma tokens trimmed and
      read as ints; a reply without that piece is an index error. */
  function ParseAction(parts: seq<string>): (r: Result<seq<int>>)
    ensures r.Ok? ==> |parts| >= 2 && forall k :: 0 <= k < |r.value| ==> Int32(r.value[k])
    ensures |parts| >= 2 && ParseTrimmedInts(JavaSplit(parts[1], ",")).Ok? ==>
      r == ParseTrimmedInts(JavaSplit(parts[1], ","))
  {
    if |parts| < 2 then Fail(IndexOutOfBounds)
    else ParseTrimmedInts(JavaSplit(parts[1], ","))
  }

  // ---------------------------------------------------------------------
  // Upload times

  /** The upload parameters: latencies in seconds, bandwidths in MB/s and
      the fog device id of the cloud. Java's static fields start at 0. */
  datatype Uplink = Uplink(
    fogLatency: real,
    fogBandwidthMB: real,
    cloudLatency: real,
    cloudBandwidthMB: real,
    cloudId: int)

  const INITIAL_UPLINK: Uplink := Uplink(0.0, 0.0, 0.0, 0.0, 0)

  /** setUploadRateVariables: bandwidths arrive in Mb/s and are stored in
      MB/s; an absent cloud argument keeps the cloud's previous value. */
  function SetUploadRateVariables(u: Uplink, fLatency: real, fBandwidthMb: real,
                                  cLatency: Option<real>, cBandwidthMb: Option<real>): (u': Uplink)
    ensures u'.fogLatency == fLatency && u'.fogBandwidthMB * 8.0 == fBandwidthMb
    ensures u'.cloudLatency == if cLatency.Some? then cLatency.value else u.cloudLatency
    ensures cBandwidthMb.Some? ==> u'.cloudBandwidthMB * 8.0 == cBandwidthMb.value
    ensures cBandwidthMb.None? ==> u'.cloudBandwidthMB == u.cloudBandwidthMB
    ensures u'.cloudId == u.cloudId
  {
    u.(fogLatency := fLatency,
       fogBandwidthMB := fBandwidthMb / 8.0,
       cloudLatency := if cLatency.Some? then cLatency.value else u.cloudLatency,
       cloudBandwidthMB := if cBandwidthMb.Some? then cBandwidthMb.value / 8.0 else u.cloudBandwidthMB)
  }

  /** setCloudId: an absent id keeps the previous one. */
  function SetCloudId(u: Uplink, id: Option<int>): (u': Uplink)
    ensures id.Some? ==> u'.cloudId == id.value
    ensures id.None? ==> u' == u
    ensures u' == u.(cloudId := u'.cloudId)
  {
    if id.Some? then u.(cloudId := id.value) else u
  }

  /** The link a transfer to `deviceId` takes is usable: Java's division by
      a zero bandwidth would give an infinite time. */
  predicate LinkUsable(u: Uplink, deviceId: int) {
    if deviceId == u.cloudId then u.cloudBandwidthMB != 0.0 else u.fogBandwidthMB != 0.0
  }

  /** getOffloadingTimeByFogDeviceId: latency plus size over bandwidth, on
      the cloud link exactly for the cloud's device id. */
  function OffloadingTime(u: Uplink, deviceId: int, size: real): (r: real)
    requires LinkUsable(u, deviceId)
    ensures deviceId == u.cloudId ==> (r - u.cloudLatency) * u.cloudBandwidthMB == size
    ensures deviceId != u.cloudId ==> (r - u.fogLatency) * u.fogBandwidthMB == size
  {
    if deviceId == u.cloudId then u.cloudLatency + size / u.cloudBandwidthMB
    else u.fogLatency + size / u.fogBandwidthMB
  }

  /** After configuration, an upload to a fog device takes the latency plus
      eight times the size over the bandwidth given in megabits. */
  lemma FogUploadInMegabits(u: Uplink, fLatency: real, fBandwidthMb: real,
                            cLatency: Option<real>, cBandwidthMb: Option<real>, deviceId: int, size: real)
    requires fBandwidthMb != 0.0 && deviceId != u.cloudId
    ensures LinkUsable(SetUploadRateVariables(u, fLatency, fBandwidthMb, cLatency, cBandwidthMb), deviceId)
    ensures OffloadingTime(SetUploadRateVariables(u, fLatency, fBandwidthMb, cLatency, cBandwidthMb), deviceId, size)
            == fLatency + 8.0 * size / fBandwidthMb
  {
  }

  /** On either link, a larger task takes at least as long to upload. */
  lemma OffloadingMonotone(u: Uplink, deviceId: int, a: real, b: real)
    requires u.fogBandwidthMB > 0.0 && u.cloudBandwidthMB > 0.0 && a <= b
    ensures OffloadingTime(u, deviceId, a) <= OffloadingTime(u, deviceId, b)
  {
    var bw := if deviceId == u.cloudId then u.cloudBandwidthMB else u.fogBandwidthMB;
    assert (OffloadingTime(u, deviceId, b) - OffloadingTime(u, deviceId, a)) * bw == b - a;
  }

  /** Re-targeting the cloud only changes which link a device uses. */
  lemma CloudIdSelectsLink(u: Uplink, id: int, size: real)
    requires u.cloudBandwidthMB != 0.0
    ensures OffloadingTime(SetCloudId(u, Some(id)), id, size) == u.cloudLatency + size / u.cloudBandwidthMB
  {
  }
}
