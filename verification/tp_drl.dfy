/** TP_DRL: the placement strategy driven by a deep Q-learning agent.

    The observation is a single-task one (seven task numbers, then four per
    server). The network scores one action per server; a pick that is not
    an available server is replaced by a random available one and, while
    training, recorded with the punishing reward.

    The network's choice and the random fallback are inputs: `pick` is the
    agent's action and `draw` the random generator's draw.
 */
module TpDrl {
  import opened Wrappers
  import opened StrategyBase
  import opened DqlAgent
  import opened DrlHistory
  import Selectors

  /** The strategy after initDRLAgent: devices, the learning fields and the
      count of punished picks (qty_of_penalization). */
  datatype TpDrl = TpDrl(devices: seq<Device>, learner: Learner, qty: int)

  /** The target network is refreshed every 50 learning steps. */
  const TARGET_PERIOD: int := 50

  /** The punishment counter restarts at action ids that are multiples of
      this. */
  const PENALIZATION_WINDOW: int := 500

  /** __init__ then initDRLAgent: the network reads 7 + 4N numbers and
      scores N actions. The punishment counter starts at zero. */
  function Init(devices: seq<Device>, training: bool): (s: TpDrl)
    ensures s.devices == devices && s.qty == 0
    ensures s.learner.agent.stateDim == 7 + 4 * |devices| && s.learner.agent.nActions == |devices|
    ensures s.learner.training == training && s.learner.history == map[] && s.learner.nSteep == 0
    ensures s.learner.rewardHistory == map[] && s.learner.agent.epsilon == 0.0
  {
    TpDrl(devices, NewLearner(training, 7 + 4 * |devices|, |devices|), 0)
  }

  /** go_to_next_episode: the learning fields start over; the punishment
      counter is kept. */
  function GoToNextEpisode(s: TpDrl): (r: TpDrl)
    ensures r.devices == s.devices && r.qty == s.qty
    ensures r.learner.history == map[] && r.learner.nSteep == 0 && r.learner.rewardHistory == map[]
    ensures Length(r.learner.agent.buffer) == 0 && r.learner.agent.epsilon == 0.0
  {
    s.(learner := NextEpisode(s.learner))
  }

  /** The punishment counter after a punished pick: one more, or zero at
      an action id that is a multiple of 500. */
  function Penalized(qty: int, actionId: int): (q: int)
    ensures q == 0 || q == qty + 1
    ensures q == 0 <==> actionId % PENALIZATION_WINDOW == 0 || qty == -1
  {
    if actionId % PENALIZATION_WINDOW == 0 then 0 else qty + 1
  }

  /** predict: with no available server, -1 and no change. Otherwise the
      agent's pick when it is available, else the available server the draw
      selects; while training the observation and the pick are recorded,
      with the punishing reward when the pick was not available, and a
      punished pick moves the counter. */
  function Predict(s: TpDrl, actionId: int, state: seq<real>, pick: int, draw: nat, cost: Cost): (r: Result<(TpDrl, Answer)>)
    ensures r.Fail? <==> AvailableServers(s.devices, state).Fail?
    ensures r.Fail? ==> r.fault == IndexOutOfBounds
    ensures r.Ok? ==> r.value.0.devices == s.devices
    ensures r.Ok? ==>
      var av := AvailableServers(s.devices, state).value;
      && (r.value.1.action == NoServer <==> av == [])
      && (av == [] ==> r.value == (s, Selectors.Busy()))
      && (av != [] ==>
            && r.value.1.action.Server? && r.value.1.action.server in av && r.value.1.cost == cost
            && (pick in av ==> r.value.1.action.server == pick)
            && r.value.0.learner == Record(s.learner, actionId, state, pick, pick in av)
            && (s.learner.training && pick !in av ==> r.value.0.qty == Penalized(s.qty, actionId))
            && (!s.learner.training || pick in av ==> r.value.0.qty == s.qty))
  {
    var av :- AvailableServers(s.devices, state);
    if |av| == 0 then Ok((s, Selectors.Busy()))
    else if pick !in av then
      var qty := if s.learner.training then Penalized(s.qty, actionId) else s.qty;
      assert av[draw % |av|] in av;
      Ok((s.(learner := Record(s.learner, actionId, state, pick, false), qty := qty),
          Answer(Server(av[draw % |av|]), cost)))
    else
      Ok((s.(learner := Record(s.learner, actionId, state, pick, true)), Answer(Server(pick), cost)))
  }

  /** The answer is always a server that is free and takes the task. */
  lemma PredictPlaces(s: TpDrl, actionId: int, state: seq<real>, pick: int, draw: nat, cost: Cost)
    requires Predict(s, actionId, state, pick, draw, cost).Ok?
    requires Predict(s, actionId, state, pick, draw, cost).value.1.action != NoServer
    ensures var a := Predict(s, actionId, state, pick, draw, cost).value.1.action;
      a.Server? && a.server < NodeCount(state) && Available(s.devices, state, a.server)
  {
  }

  /** When the agent's pick is not available the answer is the random
      strategy's answer for the same draw. */
  lemma FallbackIsRandom(s: TpDrl, actionId: int, state: seq<real>, pick: int, draw: nat, cost: Cost)
    requires AvailableServers(s.devices, state).Ok? && pick !in AvailableServers(s.devices, state).value
    ensures Predict(s, actionId, state, pick, draw, cost).value.1
         == Selectors.RandomPredict(s.devices, actionId, state, draw, cost).value
  {
  }

  /** save_reward: delegated to the shared bookkeeping. */
  function SaveReward(s: TpDrl, actionId: int, reward: real, cost: Cost): (r: Result<(TpDrl, Cost)>)
    ensures r.Fail? <==> s.learner.training && actionId !in s.learner.history
    ensures r.Ok? ==> r.value.0.devices == s.devices && r.value.0.qty == s.qty
    ensures r.Ok? ==> (r.value.0.learner, r.value.1) == DrlHistory.SaveReward(s.learner, actionId, reward, cost).value
  {
    var saved :- DrlHistory.SaveReward(s.learner, actionId, reward, cost);
    Ok((s.(learner := saved.0), saved.1))
  }

  /** learn: while training, the recorded decision becomes an experience
      whose next observation is the raw new observation; the target network
      is refreshed every 50 steps. */
  function Learn(s: TpDrl, actionId: int, state: seq<real>, cost: Cost): (r: Result<(TpDrl, Learned)>)
    ensures r.Fail? <==> s.learner.training && actionId !in s.learner.history
    ensures r.Ok? ==> r.value.0 == s.(learner := r.value.1.l)
    ensures r.Ok? && s.learner.training ==>
      var e := s.learner.history[actionId];
      && r.value.1.l.agent == StoreTransition(s.learner.agent, Transition(e.state, e.action, e.reward, state))
      && r.value.1.l.history == s.learner.history - {actionId}
      && (r.value.1.targetUpdated <==> (s.learner.nSteep + 1) % 50 == 0)
    ensures r.Ok? && !s.learner.training ==> r.value.0 == s && r.value.1.cost == NO_COST
  {
    var learned :- DrlHistory.Learn(s.learner, actionId, state, TARGET_PERIOD, cost);
    Ok((s.(learner := learned.l), learned))
  }

  /** A punished pick keeps its punishment: whatever reward the simulator
      reports afterwards, the experience learned from it carries the
      punishing reward, and the history ends as it started. */
  lemma PunishmentSticks(s: TpDrl, actionId: int, state: seq<real>, pick: int, draw: nat, reward: real,
                         next: seq<real>, c0: Cost, c1: Cost, c2: Cost)
    requires s.learner.training && actionId !in s.learner.history
    requires AvailableServers(s.devices, state).Ok? && AvailableServers(s.devices, state).value != []
    requires pick !in AvailableServers(s.devices, state).value
    ensures var predicted := Predict(s, actionId, state, pick, draw, c0).value.0;
      var rewarded := SaveReward(predicted, actionId, reward, c1).value.0;
      var learned := Learn(rewarded, actionId, next, c2).value.0;
      && learned.learner.history == s.learner.history
      && learned.learner.agent == StoreTransition(s.learner.agent, Transition(state, pick, Some(PUNISHING_REWARD), next))
  {
    var predicted := Predict(s, actionId, state, pick, draw, c0).value.0;
    assert predicted.learner.history == s.learner.history[actionId := Entry(state, pick, Some(PUNISHING_REWARD))];
    var rewarded := SaveReward(predicted, actionId, reward, c1).value.0;
    assert rewarded.learner == predicted.learner;
    assert rewarded.learner.history - {actionId} == s.learner.history;
  }

  /** An available pick is learned with the reward the simulator reports. */
  lemma ValidPickLearnsReward(s: TpDrl, actionId: int, state: seq<real>, pick: int, draw: nat, reward: real,
                              next: seq<real>, c0: Cost, c1: Cost, c2: Cost)
    requires s.learner.training && actionId !in s.learner.history
    requires AvailableServers(s.devices, state).Ok? && pick in AvailableServers(s.devices, state).value
    ensures var predicted := Predict(s, actionId, state, pick, draw, c0).value.0;
      var rewarded := SaveReward(predicted, actionId, reward, c1).value.0;
      var learned := Learn(rewarded, actionId, next, c2).value.0;
      && learned.learner.history == s.learner.history
      && learned.learner.agent == StoreTransition(s.learner.agent, Transition(state, pick, Some(reward), next))
  {
    var predicted := Predict(s, actionId, state, pick, draw, c0).value.0;
    assert predicted.learner == Record(s.learner, actionId, state, pick, true);
    RecordRewardLearn(s.learner, actionId, state, pick, reward, next, TARGET_PERIOD, c1, c2);
  }
}
