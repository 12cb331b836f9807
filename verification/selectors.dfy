/** The three heuristic placement strategies: FIFO, random and round robin.

    Each asks the base class for the available servers of a single-task
    observation and answers -1 (with no cost) when there is none. The
    random choice and the measured cost are inputs: `pick` stands for the
    random generator's draw.
 */
module Selectors {
  import opened Wrappers
  import opened StrategyBase

  /** The answer when no server is available. */
  function Busy(): (a: Answer)
    ensures a.action == NoServer && a.cost == NO_COST
  {
    Answer(NoServer, NO_COST)
  }

  // ---------------------------------------------------------------------
  // TP_FIFO

  /** TP_FIFO.predict: the first available server. The action id is not
      used and nothing is kept. */
  function FifoPredict(devices: seq<Device>, actionId: int, state: seq<real>, cost: Cost): (r: Result<Answer>)
    ensures r.Fail? <==> AvailableServers(devices, state).Fail?
    ensures r.Ok? && r.value.action == NoServer ==> r.value == Busy()
    ensures r.Ok? ==> (r.value.action == NoServer <==> AvailableServers(devices, state).value == [])
    ensures r.Ok? && r.value.action != NoServer ==>
      && r.value.action.Server?
      && r.value.action.server < NodeCount(state) && Available(devices, state, r.value.action.server)
      && (forall i :: 0 <= i < NodeCount(state) && Available(devices, state, i) ==> r.value.action.server <= i)
  {
    var available :- AvailableServers(devices, state);
    if |available| == 0 then Ok(Busy())
    else
      FirstAvailableIsLeast(devices, state);
      assert available[0] in available;
      Ok(Answer(Server(available[0]), cost))
  }

  /** FIFO ignores the action id. */
  lemma FifoIgnoresActionId(devices: seq<Device>, a: int, b: int, state: seq<real>, cost: Cost)
    ensures FifoPredict(devices, a, state, cost) == FifoPredict(devices, b, state, cost)
  {
  }

  // ---------------------------------------------------------------------
  // TP_RANDOM

  /** TP_RANDOM.predict: the available server the draw `pick` selects. */
  function RandomPredict(devices: seq<Device>, actionId: int, state: seq<real>, pick: nat, cost: Cost): (r: Result<Answer>)
    ensures r.Fail? <==> AvailableServers(devices, state).Fail?
    ensures r.Ok? ==> (r.value.action == NoServer <==> AvailableServers(devices, state).value == [])
    ensures r.Ok? && r.value.action == NoServer ==> r.value == Busy()
    ensures r.Ok? && r.value.action != NoServer ==>
      && r.value.action.Server?
      && r.value.action.server in AvailableServers(devices, state).value
      && r.value.action.server < NodeCount(state) && Available(devices, state, r.value.action.server)
  {
    var available :- AvailableServers(devices, state);
    if |available| == 0 then Ok(Busy())
    else
      assert available[pick % |available|] in available;
      Ok(Answer(Server(available[pick % |available|]), cost))
  }

  /** Every available server is a possible answer: some draw selects it. */
  lemma RandomReachesEveryServer(devices: seq<Device>, actionId: int, state: seq<real>, cost: Cost, i: nat)
    requires AvailableServers(devices, state).Ok? && i in AvailableServers(devices, state).value
    ensures exists pick: nat :: RandomPredict(devices, actionId, state, pick, cost) == Ok(Answer(Server(i), cost))
  {
    var available := AvailableServers(devices, state).value;
    var k :| 0 <= k < |available| && available[k] == i;
    SmallRemainder(k, |available|);
    RandomDraw(devices, actionId, state, k, cost);
    assert RandomPredict(devices, actionId, state, k, cost) == Ok(Answer(Server(i), cost));
  }

  lemma SmallRemainder(k: nat, n: nat)
    requires k < n
    ensures k % n == k
  {
  }

  /** The draw selects by its remainder modulo the number of available
      servers. */
  lemma RandomDraw(devices: seq<Device>, actionId: int, state: seq<real>, pick: nat, cost: Cost)
    requires AvailableServers(devices, state).Ok? && |AvailableServers(devices, state).value| > 0
    ensures var available := AvailableServers(devices, state).value;
      RandomPredict(devices, actionId, state, pick, cost) == Ok(Answer(Server(available[pick % |available|]), cost))
  {
  }

  // ---------------------------------------------------------------------
  // TP_ROUND_ROBIN

  /** The round-robin strategy after initAgent: its devices and the last
      server it selected (-1 for none). */
  datatype RoundRobin = RoundRobin(devices: seq<Device>, last: int)

  /** initAgent: no server selected yet. */
  function InitRoundRobin(devices: seq<Device>): (rr: RoundRobin)
    ensures rr.devices == devices && rr.last == -1
  {
    RoundRobin(devices, -1)
  }

  /** go_to_next_episode: start over from the first server. */
  function NextEpisode(rr: RoundRobin): (r: RoundRobin)
    ensures r.devices == rr.devices && r.last == -1
  {
    rr.(last := -1)
  }

  /** next(s for s in available if s > last): the first available index
      above `last`. */
  function FirstAbove(available: seq<nat>, last: int): (r: Option<nat>)
    ensures r.Some? ==> r.value in available && r.value > last
    ensures r.None? <==> forall k :: 0 <= k < |available| ==> available[k] <= last
  {
    if |available| == 0 then None
    else if available[0] > last then Some(available[0])
    else FirstAbove(available[1..], last)
  }

  /** In an increasing list the first index above `last` is the least such. */
  lemma {:induction false} FirstAboveIsLeast(available: seq<nat>, last: int)
    requires Increasing(available) && FirstAbove(available, last).Some?
    ensures forall k :: 0 <= k < |available| && available[k] > last ==> FirstAbove(available, last).value <= available[k]
    decreases |available|
  {
    if available[0] <= last {
      assert Increasing(available[1..]);
      FirstAboveIsLeast(available[1..], last);
      forall k | 0 <= k < |available| && available[k] > last
        ensures FirstAbove(available, last).value <= available[k]
      {
        assert k > 0 && available[k] == available[1..][k - 1];
      }
    }
  }

  /** The index round robin selects: the first available above the last,
      else wrapping around to the first available. */
  function NextServer(available: seq<nat>, last: int): (s: nat)
    requires |available| > 0
    ensures s in available
  {
    match FirstAbove(available, last)
    case Some(s) => s
    case None => FirstAbove(available, -1).value
  }

  /** TP_ROUND_ROBIN.predict: the next available server after the last one
      selected, wrapping around; the selection is remembered. With no
      available server nothing changes. */
  function RoundRobinPredict(rr: RoundRobin, actionId: int, state: seq<real>, cost: Cost): (r: Result<(RoundRobin, Answer)>)
    ensures r.Fail? <==> AvailableServers(rr.devices, state).Fail?
    ensures r.Ok? ==> r.value.0.devices == rr.devices
    ensures r.Ok? ==> (r.value.1.action == NoServer <==> AvailableServers(rr.devices, state).value == [])
    ensures r.Ok? && r.value.1.action == NoServer ==> r.value == (rr, Busy())
    ensures r.Ok? && r.value.1.action != NoServer ==>
      && r.value.1.action.Server?
      && r.value.1.action.server in AvailableServers(rr.devices, state).value
      && r.value.0.last == r.value.1.action.server
  {
    var available :- AvailableServers(rr.devices, state);
    if |available| == 0 then Ok((rr, Busy()))
    else
      var s := NextServer(available, rr.last);
      Ok((rr.(last := s), Answer(Server(s), cost)))
  }

  /** The round-robin choice: the least available index above the last
      selected one, or the least available index when there is none. */
  lemma RoundRobinChoice(rr: RoundRobin, actionId: int, state: seq<real>, cost: Cost)
    requires AvailableServers(rr.devices, state).Ok? && |AvailableServers(rr.devices, state).value| > 0
    ensures var available := AvailableServers(rr.devices, state).value;
      var s := RoundRobinPredict(rr, actionId, state, cost).value.1.action.server;
      && ((exists k :: 0 <= k < |available| && available[k] > rr.last) ==>
            s > rr.last && forall k :: 0 <= k < |available| && available[k] > rr.last ==> s <= available[k])
      && ((forall k :: 0 <= k < |available| ==> available[k] <= rr.last) ==>
            s == available[0])
  {
    var available := AvailableServers(rr.devices, state).value;
    if FirstAbove(available, rr.last).Some? {
      FirstAboveIsLeast(available, rr.last);
    } else {
      assert available[0] > -1;
    }
  }

  /** With the same available servers every time, round robin visits them
      in ascending order: after selecting the k-th it selects the next,
      and after the last it returns to the first. */
  lemma RoundRobinCycles(available: seq<nat>, k: nat)
    requires Increasing(available) && k < |available|
    ensures k + 1 < |available| ==> NextServer(available, available[k]) == available[k + 1]
    ensures k + 1 == |available| ==> NextServer(available, available[k]) == available[0]
  {
    if k + 1 < |available| {
      assert available[k] < available[k + 1];
      FirstAboveIsLeast(available, available[k]);
      forall j | 0 <= j < |available|
        ensures available[j] <= available[k] || available[k + 1] <= available[j]
      {
        if j < k {
          assert available[j] < available[k];
        } else if j > k + 1 {
          assert available[k + 1] < available[j];
        }
      }
    } else {
      forall j | 0 <= j < |available|
        ensures available[j] <= available[k]
      {
        if j < k {
          assert available[j] < available[k];
        }
      }
    }
  }
}
