/** The bookkeeping both reinforcement-learning strategies share: each
    decision's observation, action and reward are kept under its action id
    until the next observation arrives, then stored as an experience.
 */
module DrlHistory {
  import opened Wrappers
  import opened StrategyBase
  import opened DqlAgent

  /** history[action_id] = [state, action, reward]. */
  datatype Entry = Entry(state: seq<real>, action: int, reward: Option<real>)

  /** The learning fields of a strategy. */
  datatype Learner = Learner(
    training: bool,
    history: map<int, Entry>,
    nSteep: int,
    rewardHistory: map<int, real>,
    agent: Agent)

  const BATCH_SIZE: int := 64

  /** initDRLAgent's learning part: a new agent that does not explore, an
      empty history and no steps yet. */
  function NewLearner(training: bool, stateDim: int, nActions: int): (l: Learner)
    ensures l.training == training && l.history == map[] && l.nSteep == 0 && l.rewardHistory == map[]
    ensures l.agent.stateDim == stateDim && l.agent.nActions == nActions
    ensures l.agent.batchSize == 64 && l.agent.epsilon == 0.0 && Length(l.agent.buffer) == 0
  {
    Learner(training, map[], 0, map[], NewAgent(stateDim, nActions, BATCH_SIZE, 0.0))
  }

  /** go_to_next_episode: history, step count and rewards forgotten, the
      agent's buffer emptied and exploration off. */
  function NextEpisode(l: Learner): (r: Learner)
    ensures r.training == l.training && r.history == map[] && r.nSteep == 0 && r.rewardHistory == map[]
    ensures Length(r.agent.buffer) == 0 && r.agent.epsilon == 0.0
    ensures r.agent.stateDim == l.agent.stateDim && r.agent.nActions == l.agent.nActions
  {
    l.(history := map[], nSteep := 0, rewardHistory := map[], agent := ResetEnvironment(l.agent, 0.0))
  }

  /** What predict records while training: the action the agent picked,
      with the punishing reward when it was not a valid option and no
      reward yet otherwise. */
  function Record(l: Learner, actionId: int, state: seq<real>, pick: int, valid: bool): (r: Learner)
    ensures !l.training ==> r == l
    ensures l.training ==>
      && r.history.Keys == l.history.Keys + {actionId}
      && r.history[actionId] == Entry(state, pick, if valid then None else Some(PUNISHING_REWARD))
      && (forall id :: id in l.history && id != actionId ==> r.history[id] == l.history[id])
      && r.training && r.nSteep == l.nSteep && r.rewardHistory == l.rewardHistory && r.agent == l.agent
  {
    if l.training then
      l.(history := l.history[actionId := Entry(state, pick, if valid then None else Some(PUNISHING_REWARD))])
    else l
  }

  /** save_reward: while training, the reward fills the entry's slot only if
      it is still empty (a punished pick keeps its punishment) and is then
      also kept in the reward history; the measured cost is returned. A
      missing entry is a key error. Not training: no cost, no change. */
  function SaveReward(l: Learner, actionId: int, reward: real, cost: Cost): (r: Result<(Learner, Cost)>)
    ensures !l.training ==> r == Ok((l, NO_COST))
    ensures l.training ==> (r.Fail? <==> actionId !in l.history)
    ensures r.Fail? ==> r.fault == KeyMissing
    ensures l.training && r.Ok? ==> r.value.1 == cost
    ensures l.training && r.Ok? && l.history[actionId].reward.Some? ==> r.value.0 == l
    ensures l.training && r.Ok? && l.history[actionId].reward.None? ==>
      && r.value.0.history == l.history[actionId := l.history[actionId].(reward := Some(reward))]
      && r.value.0.rewardHistory == l.rewardHistory[actionId := reward]
      && r.value.0.nSteep == l.nSteep && r.value.0.agent == l.agent && r.value.0.training
  {
    if !l.training then Ok((l, NO_COST))
    else if actionId !in l.history then Fail(KeyMissing)
    else
      var e := l.history[actionId];
      if e.reward.None? then
        Ok((l.(history := l.history[actionId := e.(reward := Some(reward))],
               rewardHistory := l.rewardHistory[actionId := reward]), cost))
      else Ok((l, cost))
  }

  /** The first saved reward wins: saving again changes nothing. */
  lemma FirstRewardWins(l: Learner, actionId: int, a: real, b: real, c1: Cost, c2: Cost)
    requires l.training && actionId in l.history
    ensures var once := SaveReward(l, actionId, a, c1).value.0;
      && once.history[actionId].reward.Some?
      && SaveReward(once, actionId, b, c2) == Ok((once, c2))
  {
  }

  /** What learn did. */
  datatype Learned = Learned(l: Learner, cost: Cost, trained: bool, targetUpdated: bool)

  /** learn: while training, one more step; the entry under the action id
      becomes an experience ending in `next` and leaves the history; the
      agent trains if its buffer holds a batch; every `period` steps the
      target network is refreshed. A missing entry is a key error. Not
      training: no cost, no change. */
  function Learn(l: Learner, actionId: int, next: seq<real>, period: int, cost: Cost): (r: Result<Learned>)
    requires period > 0
    ensures !l.training ==> r == Ok(Learned(l, NO_COST, false, false))
    ensures l.training ==> (r.Fail? <==> actionId !in l.history)
    ensures r.Fail? ==> r.fault == KeyMissing
    ensures l.training && r.Ok? ==>
      var e := l.history[actionId];
      && r.value.l.nSteep == l.nSteep + 1
      && r.value.l.history == l.history - {actionId}
      && r.value.l.rewardHistory == l.rewardHistory && r.value.l.training
      && r.value.l.agent == StoreTransition(l.agent, Transition(e.state, e.action, e.reward, next))
      && (r.value.trained <==> Length(r.value.l.agent.buffer) >= r.value.l.agent.batchSize)
      && (r.value.targetUpdated <==> (l.nSteep + 1) % period == 0)
      && r.value.cost == cost
  {
    if !l.training then Ok(Learned(l, NO_COST, false, false))
    else if actionId !in l.history then Fail(KeyMissing)
    else
      var e := l.history[actionId];
      var stored := StoreTransition(l.agent, Transition(e.state, e.action, e.reward, next));
      var (trained, ran) := DqlAgent.Learn(stored);
      var steps := l.nSteep + 1;
      Ok(Learned(l.(nSteep := steps, history := l.history - {actionId}, agent := trained), cost, ran, steps % period == 0))
  }

  /** A recorded decision, rewarded and then learned from, leaves no trace
      in the history and adds exactly its experience, with the saved
      reward, to the agent's buffer. */
  lemma RecordRewardLearn(l: Learner, actionId: int, state: seq<real>, pick: int, reward: real,
                          next: seq<real>, period: int, c1: Cost, c2: Cost)
    requires l.training && actionId !in l.history && period > 0
    ensures var recorded := Record(l, actionId, state, pick, true);
      var rewarded := SaveReward(recorded, actionId, reward, c1).value.0;
      var learned := Learn(rewarded, actionId, next, period, c2).value.l;
      && learned.history == l.history
      && learned.agent == StoreTransition(l.agent, Transition(state, pick, Some(reward), next))
  {
    var recorded := Record(l, actionId, state, pick, true);
    var rewarded := SaveReward(recorded, actionId, reward, c1).value.0;
    assert rewarded.history == l.history[actionId := Entry(state, pick, Some(reward))];
    assert rewarded.history - {actionId} == l.history;
  }
}
