/** The Python agent's socket server: one connection, one message at a
    time, each answered with a framed reply.

    The JSON decoding of a message and the strategy's work are inputs: a
    message arrives as what its handler reported (`Handled`), as the empty
    message that ends the session, or as an exception, which ends it too.
    How a float is written (Python's repr) is the parameter `render`.
 */
module SocketServer {
  import opened Wrappers
  import opened StrategyBase
  import opened JobManager
  import opened Framing
  import opened Sums

  /** The server's state: the name setup returned (None before any setup)
      and the costs measured since the last decision, oldest first; each
      cost is one entry of both cpu_percent_list and time_list. */
  datatype Connection = Connection(strategyName: Option<string>, pending: seq<Cost>)

  const START: Connection := Connection(None, [])

  /** What a message's handler returned. */
  datatype Handled =
    | SetupDone(name: string)            // setup: the strategy name
    | Decided(action: Action, cost: Cost) // ask_decision
    | Rewarded(cost: Cost)               // save_reward
    | Retrained(cost: Cost)              // retrain
    | Plotted                            // plot
    | ModelSaved                         // save_model
    | EpisodeStarted                     // next_episode
    | Unhandled                          // an action no branch names

  /** A message as the loop sees it. */
  datatype Message = Handle(h: Handled) | Empty | Raised

  /** The reply before it is written out: a decision with its time and
      CPU figures, or a word. */
  datatype Reply = Decision(time: real, cpu: real, action: Action) | Word(text: string)

  // ---------------------------------------------------------------------
  // The decision's cost figures

  /** sum(time_list). */
  function TotalTime(pending: seq<Cost>): real
  {
    if |pending| == 0 then 0.0 else pending[0].time + TotalTime(pending[1..])
  }

  /** sum(cpu_percent_list[i] * time_list[i]). */
  function WeightedCpu(pending: seq<Cost>): real
  {
    if |pending| == 0 then 0.0 else pending[0].cpu * pending[0].time + WeightedCpu(pending[1..])
  }

  /** The time-weighted CPU average, dividing by 1 when the total time is
      not positive. */
  function AverageCpu(pending: seq<Cost>): (c: real)
    ensures TotalTime(pending) > 0.0 ==> c * TotalTime(pending) == WeightedCpu(pending)
    ensures TotalTime(pending) <= 0.0 ==> c == WeightedCpu(pending)
  {
    var t := TotalTime(pending);
    WeightedCpu(pending) / (if t > 0.0 then t else 1.0)
  }

  /** Costs whose CPU share lies within [0, hi] and whose time is not
      negative. */
  predicate Measured(pending: seq<Cost>, hi: real) {
    forall k :: 0 <= k < |pending| ==> 0.0 <= pending[k].cpu <= hi && pending[k].time >= 0.0
  }

  lemma {:induction false} WeightedBounds(pending: seq<Cost>, hi: real)
    requires Measured(pending, hi)
    ensures 0.0 <= WeightedCpu(pending) <= hi * TotalTime(pending)
    ensures TotalTime(pending) >= 0.0
    decreases |pending|
  {
    if |pending| > 0 {
      assert Measured(pending[1..], hi) by {
        forall k | 0 <= k < |pending[1..]|
          ensures 0.0 <= pending[1..][k].cpu <= hi && pending[1..][k].time >= 0.0
        {
          assert pending[1..][k] == pending[k + 1];
        }
      }
      WeightedBounds(pending[1..], hi);
      var c := pending[0];
      assert 0.0 <= c.cpu * c.time <= hi * c.time by {
        ProductBounds(c.cpu, c.time, hi);
      }
    }
  }

  lemma ProductBounds(cpu: real, time: real, hi: real)
    requires 0.0 <= cpu <= hi && time >= 0.0
    ensures 0.0 <= cpu * time <= hi * time
  {
  }

  /** The reported CPU percent is an average of the measured ones: when
      every measurement lies within [0, hi], so does the figure sent, and it
      is 0 when no time was measured. */
  lemma AverageCpuWithin(pending: seq<Cost>, hi: real)
    requires hi >= 0.0 && Measured(pending, hi)
    ensures 0.0 <= AverageCpu(pending) <= hi
    ensures TotalTime(pending) == 0.0 ==> AverageCpu(pending) == 0.0
  {
    WeightedBounds(pending, hi);
    var t := TotalTime(pending);
    if t > 0.0 {
      DivideBounds(WeightedCpu(pending), t, 0.0, hi, AverageCpu(pending));
    }
  }

  // ---------------------------------------------------------------------
  // One message

  /** The reply to one handled message and the state after it: setup
      forgets the pending costs and replies with the strategy name; a
      decision reports the total time and the weighted CPU of everything
      pending, itself included, then forgets it; save_reward and retrain
      add their cost and reply "Success", as do plot, save_model and
      next_episode without a cost; an unknown action replies "None". */
  function Step(s: Connection, h: Handled): (r: (Connection, Reply))
    ensures h.SetupDone? ==> r == (Connection(Some(h.name), []), Word(h.name))
    ensures h.Decided? ==>
      && r.0 == s.(pending := [])
      && r.1 == Decision(TotalTime(s.pending + [h.cost]), AverageCpu(s.pending + [h.cost]), h.action)
    ensures (h.Rewarded? || h.Retrained?) ==> r == (s.(pending := s.pending + [h.cost]), Word("Success"))
    ensures (h.Plotted? || h.ModelSaved? || h.EpisodeStarted?) ==> r == (s, Word("Success"))
    ensures h.Unhandled? ==> r == (s, Word("None"))
  {
    match h
    case SetupDone(name) => (Connection(Some(name), []), Word(name))
    case Decided(action, cost) =>
      var pending := s.pending + [cost];
      (s.(pending := []), Decision(TotalTime(pending), AverageCpu(pending), action))
    case Rewarded(cost) => (s.(pending := s.pending + [cost]), Word("Success"))
    case Retrained(cost) => (s.(pending := s.pending + [cost]), Word("Success"))
    case Plotted => (s, Word("Success"))
    case ModelSaved => (s, Word("Success"))
    case EpisodeStarted => (s, Word("Success"))
    case Unhandled => (s, Word("None"))
  }

  /** The numbers of an action as written after the 'd': -1, a server, or
      a task and a server. */
  function ActionInts(a: Action): (r: seq<int>)
    ensures |r| > 0
    ensures a == NoServer <==> r == [-1]
  {
    match a
    case NoServer => [-1]
    case Server(server) => [server as int]
    case TaskServer(task, server) => [task as int, server as int]
  }

  /** str(response): "<time>,<cpu>d<action>" for a decision, the word
      otherwise. */
  function ReplyText(r: Reply, render: real -> string): (text: string)
    ensures r.Word? ==> text == r.text
    ensures r.Decision? ==>
      text == render(r.time) + "," + render(r.cpu) + "d" + FormatInts(ActionInts(r.action))
  {
    match r
    case Decision(time, cpu, action) => render(time) + "," + render(cpu) + "d" + FormatInts(ActionInts(action))
    case Word(w) => w
  }

  // ---------------------------------------------------------------------
  // The loop

  /** What the session leaves: the strategy name it returns and the frames
      it sent, in order. */
  datatype Session = Session(strategyName: Option<string>, sent: seq<seq<byte>>)

  /** server_program's loop: each handled message is answered with its
      framed reply; the empty message, an exception or a reply too long
      for the two-byte length ends the session (the state change of that
      last message is kept). Running out of messages is the client closing
      the connection, which reads as the empty message. */
  function Serve(s: Connection, msgs: seq<Message>, render: real -> string): (r: Session)
    ensures |r.sent| <= |msgs|
    ensures forall k :: 0 <= k < |r.sent| ==> msgs[k].Handle?
    decreases |msgs|
  {
    if |msgs| == 0 || !msgs[0].Handle? then Session(s.strategyName, [])
    else
      var step := Step(s, msgs[0].h);
      match Frame(ReplyText(step.1, render))
      case Fail(_) => Session(step.0.strategyName, [])
      case Ok(frame) =>
        var rest := Serve(step.0, msgs[1..], render);
        Session(rest.strategyName, [frame] + rest.sent)
  }

  /** Nothing is answered from the first message that is not handled on:
      the session has ended. */
  lemma ServeStops(s: Connection, msgs: seq<Message>, render: real -> string, k: nat)
    requires k < |msgs| && !msgs[k].Handle?
    ensures |Serve(s, msgs, render).sent| <= k
  {
  }

  /** The messages of a run of handled ones. */
  function Handles(hs: seq<Handled>): (msgs: seq<Message>)
    ensures |msgs| == |hs|
  {
    if |hs| == 0 then [] else [Handle(hs[0])] + Handles(hs[1..])
  }

  /** Every reply of a run of handled messages fits the two-byte length. */
  predicate AllFit(s: Connection, hs: seq<Handled>, render: real -> string)
    decreases |hs|
  {
    |hs| == 0 ||
      var step := Step(s, hs[0]);
      Frame(ReplyText(step.1, render)).Ok? && AllFit(step.0, hs[1..], render)
  }

  /** The framed replies to a run of handled messages, in order. */
  function Frames(s: Connection, hs: seq<Handled>, render: real -> string): (f: seq<seq<byte>>)
    requires AllFit(s, hs, render)
    ensures |f| == |hs|
    decreases |hs|
  {
    if |hs| == 0 then []
    else
      var step := Step(s, hs[0]);
      [Frame(ReplyText(step.1, render)).value] + Frames(step.0, hs[1..], render)
  }

  /** While every reply fits its frame, a session of handled messages
      answers each of them, in order, with its framed reply. */
  lemma {:induction false} ServeAnswersEach(s: Connection, hs: seq<Handled>, render: real -> string)
    requires AllFit(s, hs, render)
    ensures Serve(s, Handles(hs), render).sent == Frames(s, hs, render)
    decreases |hs|
  {
    if |hs| > 0 {
      assert Handles(hs)[1..] == Handles(hs[1..]);
      ServeAnswersEach(Step(s, hs[0]).0, hs[1..], render);
    }
  }

  /** The state after a run of handled messages. */
  function After(s: Connection, hs: seq<Handled>): Connection
    decreases |hs|
  {
    if |hs| == 0 then s else After(Step(s, hs[0]).0, hs[1..])
  }

  /** Messages that only add a cost: save_reward and retrain. */
  predicate Costly(hs: seq<Handled>) {
    forall k :: 0 <= k < |hs| ==> hs[k].Rewarded? || hs[k].Retrained?
  }

  function CostsOf(hs: seq<Handled>): (r: seq<Cost>)
    requires Costly(hs)
    ensures |r| == |hs|
  {
    seq(|hs|, k requires 0 <= k < |hs| requires Costly(hs) => hs[k].cost)
  }

  /** Between two decisions the costs of save_reward and retrain pile up
      in arrival order, so the next decision's figures cover them. */
  lemma {:induction false} CostsPileUp(s: Connection, hs: seq<Handled>)
    requires Costly(hs)
    ensures After(s, hs) == s.(pending := s.pending + CostsOf(hs))
    decreases |hs|
  {
    if |hs| > 0 {
      var next := s.(pending := s.pending + [hs[0].cost]);
      assert Step(s, hs[0]).0 == next;
      assert Costly(hs[1..]) by {
        forall k | 0 <= k < |hs[1..]|
          ensures hs[1..][k].Rewarded? || hs[1..][k].Retrained?
        {
          assert hs[1..][k] == hs[k + 1];
        }
      }
      CostsPileUp(next, hs[1..]);
      assert CostsOf(hs) == [hs[0].cost] + CostsOf(hs[1..]);
      assert s.pending + [hs[0].cost] + CostsOf(hs[1..]) == s.pending + CostsOf(hs);
    }
  }

  /** Right after setup, a decision reports exactly its own cost. */
  lemma DecisionAfterSetup(name: string, a: Action, c: Cost, s: Connection)
    ensures var ready := Step(s, SetupDone(name)).0;
      Step(ready, Decided(a, c)).1 == Decision(c.time, AverageCpu([c]), a)
  {
    assert [] + [c] == [c];
    assert TotalTime([c]) == c.time + TotalTime([]);
  }
}
