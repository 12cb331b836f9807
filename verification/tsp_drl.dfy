/** TSP_DRL: the strategy that picks both a task and a server.

    The observation holds six numbers per queued task (the sixth is its
    priority), the clock, and four numbers per server. It is condensed to
    one six-number slot per priority 1..P, holding the first task of that
    priority that fits an idle server (zeros when there is none), followed
    by the clock and the servers. Each (slot, idle server that takes the
    slot's task) pair is an option, coded as priority * N + server.

    The network's choice and the random fallback are inputs: `pick` is the
    agent's action and `draw` the random generator's draw.
 */
module TspDrl {
  import opened Wrappers
  import opened StrategyBase
  import opened DqlAgent
  import opened DrlHistory

  /** The strategy after initDRLAgent: devices, the number of priorities P
      and the learning fields. */
  datatype TspDrl = TspDrl(devices: seq<Device>, priorities: nat, learner: Learner)

  /** The target network is refreshed every 100 learning steps. */
  const TARGET_PERIOD: int := 100

  /** __init__ then initDRLAgent: the network reads the condensed
      observation (6P + 1 + 4N numbers) and scores P * N actions. */
  function Init(devices: seq<Device>, priorities: nat, training: bool): (s: TspDrl)
    ensures s.devices == devices && s.priorities == priorities
    ensures s.learner.agent.stateDim == 6 * priorities + 1 + 4 * |devices|
    ensures s.learner.agent.nActions == priorities * |devices|
    ensures s.learner.training == training && s.learner.history == map[] && s.learner.nSteep == 0
    ensures s.learner.rewardHistory == map[] && s.learner.agent.epsilon == 0.0
  {
    TspDrl(devices, priorities, NewLearner(training, 6 * priorities + 1 + 4 * |devices|, priorities * |devices|))
  }

  /** go_to_next_episode. */
  function GoToNextEpisode(s: TspDrl): (r: TspDrl)
    ensures r.devices == s.devices && r.priorities == s.priorities
    ensures r.learner.history == map[] && r.learner.nSteep == 0 && r.learner.rewardHistory == map[]
    ensures Length(r.learner.agent.buffer) == 0 && r.learner.agent.epsilon == 0.0
  {
    s.(learner := NextEpisode(s.learner))
  }

  // ---------------------------------------------------------------------
  // parse_state_to_rl

  /** Every mapped task lies inside the observation. */
  predicate Within(first: map<real, nat>, state: seq<real>) {
    forall key :: key in first ==> 6 * first[key] + 6 <= |state|
  }

  /** Number k (0..5) of slot p: that number of the mapped task of
      priority p + 1, or the empty value. */
  function SlotValue(first: map<real, nat>, state: seq<real>, p: nat, k: nat): real
    requires Within(first, state) && k < 6
  {
    var key := (p + 1) as real;
    if key in first then state[6 * first[key] + k] else EMPTY_VALUE
  }

  /** The length of state[-(4N + 1):]: 4N + 1, or the whole observation
      when it is shorter. */
  function TailWidth(n: nat, state: seq<real>): nat {
    if |state| >= 4 * n + 1 then 4 * n + 1 else |state|
  }

  /** The first-task map only names tasks of the observation, and it is
      empty when the observation has no task part. */
  lemma FirstWithin(devices: seq<Device>, state: seq<real>)
    ensures Within(FirstTaskByPriority(devices, state), state)
    ensures |state| < 4 * |devices| + 1 ==> FirstTaskByPriority(devices, state) == map[]
  {
    var first := FirstTaskByPriority(devices, state);
    forall key | key in first
      ensures 6 * first[key] + 6 <= |state|
    {
      FirstTaskInRange(devices, state, key);
    }
  }

  /** Position 6p + k lies in slot p, at number k. */
  lemma SlotPosition(p: nat, k: nat)
    requires k < 6
    ensures (6 * p + k) / 6 == p && (6 * p + k) % 6 == k
  {
  }

  /** parse_state_to_rl: the condensed observation and the first task of
      each priority. For each priority p + 1 in 1..P, the six numbers of
      its first fitting task (the observation's slice from 6t to 6t + 6)
      or six empty values; then the last 4N + 1 numbers of the
      observation, the clock and the servers. */
  function ParseStateToRl(s: TspDrl, state: seq<real>): (r: (seq<real>, map<real, nat>))
    ensures r.1 == FirstTaskByPriority(s.devices, state) && Within(r.1, state)
    ensures |r.0| == 6 * s.priorities + TailWidth(|s.devices|, state)
    ensures Shaped(s, r.0)
  {
    var first := FirstTaskByPriority(s.devices, state);
    FirstWithin(s.devices, state);
    var slots := 6 * s.priorities;
    var w := TailWidth(|s.devices|, state);
    var rl := seq(slots + w, i requires 0 <= i < slots + w =>
      if i < slots then SlotValue(first, state, i / 6, i % 6) else state[|state| - w + (i - slots)]);
    assert Shaped(s, rl) by {
      if |state| < 4 * |s.devices| + 1 {
        forall p: nat | p < s.priorities
          ensures rl[6 * p + 5] == EMPTY_VALUE
        {
          SlotPosition(p, 5);
        }
      }
    }
    (rl, first)
  }

  /** Position 6p + k of the condensed observation holds number k of
      slot p. */
  lemma ParsedSlot(s: TspDrl, state: seq<real>, p: nat, k: nat)
    requires p < s.priorities && k < 6
    ensures var r := ParseStateToRl(s, state);
      6 * p + k < |r.0| && r.0[6 * p + k] == SlotValue(r.1, state, p, k)
  {
    SlotPosition(p, k);
  }

  /** After the slots, position 6P + i holds number i of
      state[-(4N + 1):]. */
  lemma ParsedTail(s: TspDrl, state: seq<real>, i: nat)
    requires i < TailWidth(|s.devices|, state)
    ensures var rl := ParseStateToRl(s, state).0;
      6 * s.priorities + i < |rl|
      && rl[6 * s.priorities + i] == state[|state| - TailWidth(|s.devices|, state) + i]
  {
  }

  /** Slot p of the parsed observation, read back: occupied exactly when
      priority p + 1 has a first fitting task, and then holding that task's
      numbers, whose priority is p + 1. */
  lemma SlotContents(s: TspDrl, state: seq<real>, p: nat)
    requires p < s.priorities
    ensures var rl := ParseStateToRl(s, state).0; var first := ParseStateToRl(s, state).1;
      && (rl[6 * p + 5] != EMPTY_VALUE <==> (p + 1) as real in first)
      && ((p + 1) as real in first ==>
            var t := first[(p + 1) as real];
            && t < TaskCount(|s.devices|, state)
            && rl[6 * p + 5] == (p + 1) as real && state[6 * t + 5] == (p + 1) as real
            && rl[6 * p + 1] == state[6 * t + 1] && rl[6 * p + 2] == state[6 * t + 2])
  {
    ParsedSlot(s, state, p, 5);
    ParsedSlot(s, state, p, 1);
    ParsedSlot(s, state, p, 2);
    if (p + 1) as real in ParseStateToRl(s, state).1 {
      FirstTaskInRange(s.devices, state, (p + 1) as real);
    }
  }

  /** Each slot of the parsed observation holds its own priority number or
      is empty. */
  lemma ParsedNumbered(s: TspDrl, state: seq<real>)
    ensures Numbered(s, ParseStateToRl(s, state).0)
  {
    var rl := ParseStateToRl(s, state).0;
    forall p: nat | p < s.priorities
      ensures rl[6 * p + 5] == EMPTY_VALUE || rl[6 * p + 5] == (p + 1) as real
    {
      SlotContents(s, state, p);
    }
  }

  /** After the slots come the clock and the servers: with a full server
      part, server srv's busy flag is read where the observation has it. */
  lemma ParsedServerFlag(s: TspDrl, state: seq<real>, srv: nat)
    requires srv < |s.devices| && |state| >= 4 * |s.devices| + 1
    ensures var rl := ParseStateToRl(s, state).0;
      6 * s.priorities + 4 * srv + 4 < |rl|
      && rl[6 * s.priorities + 4 * srv + 4] == state[TaskPartSize(|s.devices|, state) + 1 + 4 * srv + 3]
  {
    ParsedTail(s, state, 4 * srv + 4);
  }

  // ---------------------------------------------------------------------
  // get_available_codified_options

  /** A condensed observation the option scan can read: the slots, and the
      whole server part whenever some slot is occupied. */
  predicate Shaped(s: TspDrl, rl: seq<real>) {
    && |rl| >= 6 * s.priorities
    && (|rl| >= 6 * s.priorities + 4 * |s.devices| + 1
        || forall p :: 0 <= p < s.priorities ==> rl[6 * p + 5] == EMPTY_VALUE)
  }

  /** Each slot holds its own priority number or is empty. */
  predicate Numbered(s: TspDrl, rl: seq<real>)
    requires |rl| >= 6 * s.priorities
  {
    forall p: nat :: p < s.priorities ==> rl[6 * p + 5] == EMPTY_VALUE || rl[6 * p + 5] == (p + 1) as real
  }

  /** Server `srv` is idle and takes the task in occupied slot t. */
  predicate IsOption(s: TspDrl, rl: seq<real>, t: nat, srv: nat)
    requires Shaped(s, rl)
  {
    && t < s.priorities && srv < |s.devices|
    && rl[6 * t + 5] != EMPTY_VALUE
    && rl[6 * s.priorities + 4 * srv + 4] == 0.0
    && Fits(s.devices[srv], rl[6 * t + 1], rl[6 * t + 2])
  }

  /** An option's code: the slot's priority times N, plus the server. */
  function Code(s: TspDrl, rl: seq<real>, t: nat, srv: nat): real
    requires t < s.priorities && |rl| >= 6 * s.priorities
  {
    rl[6 * t + 5] * (|s.devices| as real) + srv as real
  }

  /** The options of slot t with a server index from `from` on. */
  function ServerOptions(s: TspDrl, rl: seq<real>, t: nat, from: nat): (r: seq<real>)
    requires Shaped(s, rl) && t < s.priorities && rl[6 * t + 5] != EMPTY_VALUE && from <= |s.devices|
    ensures forall c :: c in r <==> exists srv: nat :: from <= srv && IsOption(s, rl, t, srv) && c == Code(s, rl, t, srv)
    decreases |s.devices| - from
  {
    if from == |s.devices| then []
    else
      var rest := ServerOptions(s, rl, t, from + 1);
      if IsOption(s, rl, t, from) then [Code(s, rl, t, from)] + rest else rest
  }

  /** The options of the slots from `from` on. */
  function SlotOptions(s: TspDrl, rl: seq<real>, from: nat): (r: seq<real>)
    requires Shaped(s, rl) && from <= s.priorities
    ensures forall c :: c in r <==>
      exists t: nat, srv: nat :: from <= t && IsOption(s, rl, t, srv) && c == Code(s, rl, t, srv)
    decreases s.priorities - from
  {
    if from == s.priorities then []
    else
      var rest := SlotOptions(s, rl, from + 1);
      if rl[6 * from + 5] == EMPTY_VALUE then rest
      else ServerOptions(s, rl, from, 0) + rest
  }

  /** get_available_codified_options: the code of every option, slot by
      slot and server by server. */
  function Options(s: TspDrl, rl: seq<real>): (r: seq<real>)
    requires Shaped(s, rl)
    ensures forall c :: c in r <==> exists t: nat, srv: nat :: IsOption(s, rl, t, srv) && c == Code(s, rl, t, srv)
  {
    SlotOptions(s, rl, 0)
  }

  // ---------------------------------------------------------------------
  // Decoding an option

  /** action // N: the priority part of a code. */
  function KeyOf(code: real, n: nat): int
    requires n > 0
  {
    (code / (n as real)).Floor
  }

  /** action % N: the server part of a code (Python's float modulo). */
  function ServerOf(code: real, n: nat): real
    requires n > 0
  {
    code - (n as real) * (KeyOf(code, n) as real)
  }

  /** Decoding inverts the coding: priority * N + server splits back into
      the priority and the server. */
  lemma EncodeDecode(priority: int, srv: nat, n: nat)
    requires srv < n
    ensures KeyOf((priority * n + srv) as real, n) == priority
    ensures ServerOf((priority * n + srv) as real, n) == srv as real
  {
    var x := ((priority * n + srv) as real) / (n as real);
    assert (priority * n + srv) as real == (priority as real) * (n as real) + srv as real;
    assert x == priority as real + (srv as real) / (n as real);
    assert 0.0 <= (srv as real) / (n as real) < 1.0;
  }

  /** The code of server srv for a slot holding priority number
      `priority` decodes back to both. */
  lemma DecodeSlotCode(s: TspDrl, rl: seq<real>, t: nat, srv: nat, c: real)
    requires t < s.priorities && |rl| >= 6 * s.priorities && srv < |s.devices|
    requires rl[6 * t + 5] == (t + 1) as real && c == Code(s, rl, t, srv)
    ensures KeyOf(c, |s.devices|) == t + 1 && ServerOf(c, |s.devices|) == srv as real
    ensures c == ((t + 1) * |s.devices| + srv) as real
  {
    var n := |s.devices|;
    assert ((t + 1) * n + srv) as real == ((t + 1) as real) * (n as real) + srv as real;
    assert c == ((t + 1) * n + srv) as real;
    EncodeDecode(t + 1, srv, n);
  }

  /** Every option of a numbered observation is the code of some slot t
      and server srv, and decodes back to priority t + 1 and server srv. */
  lemma OptionDecodesRl(s: TspDrl, rl: seq<real>, c: real)
    requires Shaped(s, rl) && Numbered(s, rl) && c in Options(s, rl)
    ensures |s.devices| > 0
    ensures 1 <= KeyOf(c, |s.devices|) <= s.priorities
    ensures 0 <= ServerOf(c, |s.devices|).Floor < |s.devices|
    ensures ServerOf(c, |s.devices|) == ServerOf(c, |s.devices|).Floor as real
    ensures IsOption(s, rl, KeyOf(c, |s.devices|) - 1, ServerOf(c, |s.devices|).Floor)
    ensures c == (KeyOf(c, |s.devices|) * |s.devices| + ServerOf(c, |s.devices|).Floor) as real
  {
    var t: nat, srv: nat :| IsOption(s, rl, t, srv) && c == Code(s, rl, t, srv);
    var n := |s.devices|;
    assert rl[6 * t + 5] == (t + 1) as real;
    DecodeSlotCode(s, rl, t, srv, c);
  }

  /** Every option code of a numbered observation lies in
      [N, (P + 1) * N). */
  lemma OptionCodeRange(s: TspDrl, rl: seq<real>, c: real)
    requires Shaped(s, rl) && Numbered(s, rl) && c in Options(s, rl)
    ensures (|s.devices| as real) <= c < ((s.priorities + 1) * |s.devices|) as real
  {
    OptionDecodesRl(s, rl, c);
    var n := |s.devices|;
    CodeBounds(KeyOf(c, n), ServerOf(c, n).Floor, n, s.priorities, c);
  }

  /** priority * N + server for a priority 1..P and a server below N. */
  lemma CodeBounds(priority: int, srv: int, n: int, count: int, c: real)
    requires 1 <= priority <= count && 0 <= srv < n && c == (priority * n + srv) as real
    ensures (n as real) <= c < ((count + 1) * n) as real
  {
    assert (priority - 1) * n >= 0;
    assert (count - priority) * n >= 0;
  }

  /** A slot whose priority has a first fitting task gives an option: the
      slot with the idle server that takes the task. */
  lemma TaskGivesOption(s: TspDrl, state: seq<real>, p: nat)
    requires p < s.priorities && (p + 1) as real in ParseStateToRl(s, state).1
    ensures exists srv: nat :: IsOption(s, ParseStateToRl(s, state).0, p, srv)
  {
    var n := |s.devices|;
    var first := ParseStateToRl(s, state).1;
    SlotContents(s, state, p);
    var t := first[(p + 1) as real];
    assert FitsIdle(s.devices, state, t);
    var srv: nat :| srv < n && state[TaskPartSize(n, state) + 1 + 4 * srv + 3] == 0.0
      && Fits(s.devices[srv], state[6 * t + 1], state[6 * t + 2]);
    ParsedServerFlag(s, state, srv);
    assert IsOption(s, ParseStateToRl(s, state).0, p, srv);
  }

  /** There is an option exactly when some priority 1..P has a task that
      fits an idle server. */
  lemma OptionsExist(s: TspDrl, state: seq<real>)
    ensures var rl := ParseStateToRl(s, state).0; var first := ParseStateToRl(s, state).1;
      |Options(s, rl)| > 0 <==> exists k :: k in first && 1.0 <= k <= s.priorities as real && k == k.Floor as real
  {
    var rl := ParseStateToRl(s, state).0; var first := ParseStateToRl(s, state).1;
    if exists k :: k in first && 1.0 <= k <= s.priorities as real && k == k.Floor as real {
      var k :| k in first && 1.0 <= k <= s.priorities as real && k == k.Floor as real;
      var p: nat := k.Floor - 1;
      assert (p + 1) as real == k;
      TaskGivesOption(s, state, p);
      var srv: nat :| IsOption(s, rl, p, srv);
      assert Code(s, rl, p, srv) in Options(s, rl);
    }
    if |Options(s, rl)| > 0 {
      var c := Options(s, rl)[0];
      DecodeFacts(s, state, c);
      var k := KeyOf(c, |s.devices|) as real;
      assert k in first && 1.0 <= k <= s.priorities as real && k == k.Floor as real;
    }
  }

  // ---------------------------------------------------------------------
  // predict

  /** The code predict acts on: the agent's pick when it is an option,
      else the option the random draw selects. */
  function Choose(options: seq<real>, pick: int, draw: nat): (c: real)
    requires |options| > 0
    ensures c in options
    ensures pick as real in options ==> c == pick as real
  {
    if pick as real in options then pick as real else options[draw % |options|]
  }

  /** What an option code stands for: a task, a server and the task's
      priority. */
  datatype Placement = Placement(task: nat, server: nat, priority: nat)

  /** Code c stands for placement d: d's task is the first of d's priority
      (1..P) to fit an idle server, d's server is idle and takes it, and
      the code is priority * N + server. */
  predicate StandsFor(s: TspDrl, state: seq<real>, first: map<real, nat>, c: real, d: Placement) {
    var n := |s.devices|;
    && d.task < TaskCount(n, state) && d.server < n
    && 1 <= d.priority <= s.priorities && state[6 * d.task + 5] == d.priority as real
    && d.priority as real in first && first[d.priority as real] == d.task
    && state[TaskPartSize(n, state) + 1 + 4 * d.server + 3] == 0.0
    && Fits(s.devices[d.server], state[6 * d.task + 1], state[6 * d.task + 2])
    && c == (d.priority * n + d.server) as real
  }

  /** Slot t with server srv, an option of the parsed observation, stands
      for the first fitting task of priority t + 1 on that server. */
  lemma SlotServerFacts(s: TspDrl, state: seq<real>, t: nat, srv: nat)
    requires IsOption(s, ParseStateToRl(s, state).0, t, srv)
    ensures var first := ParseStateToRl(s, state).1;
      && (t + 1) as real in first
      && StandsFor(s, state, first, ((t + 1) * |s.devices| + srv) as real, Placement(first[(t + 1) as real], srv, t + 1))
  {
    var n := |s.devices|;
    assert |state| >= 4 * n + 1;
    SlotContents(s, state, t);
    ParsedServerFlag(s, state, srv);
  }

  /** An option of the parsed observation decodes, by action // N and
      action % N, to the placement it stands for. */
  lemma DecodeFacts(s: TspDrl, state: seq<real>, c: real)
    requires c in Options(s, ParseStateToRl(s, state).0)
    ensures |s.devices| > 0
    ensures var n := |s.devices|; var first := ParseStateToRl(s, state).1;
      && 1 <= KeyOf(c, n) && 0 <= ServerOf(c, n).Floor && KeyOf(c, n) as real in first
      && StandsFor(s, state, first, c, Placement(first[KeyOf(c, n) as real], ServerOf(c, n).Floor, KeyOf(c, n)))
  {
    var rl := ParseStateToRl(s, state).0;
    ParsedNumbered(s, state);
    var t: nat, srv: nat :| IsOption(s, rl, t, srv) && c == Code(s, rl, t, srv);
    assert rl[6 * t + 5] == (t + 1) as real;
    DecodeSlotCode(s, rl, t, srv, c);
    SlotServerFacts(s, state, t, srv);
    var n := |s.devices|;
    Renamed(s, state, ParseStateToRl(s, state).1, c, t, srv, KeyOf(c, n), ServerOf(c, n).Floor);
  }

  /** The placement of slot t and server srv, named by the decoded key and
      server. */
  lemma Renamed(s: TspDrl, state: seq<real>, first: map<real, nat>, c: real, t: nat, srv: nat, k: int, sv: int)
    requires (t + 1) as real in first
    requires StandsFor(s, state, first, ((t + 1) * |s.devices| + srv) as real, Placement(first[(t + 1) as real], srv, t + 1))
    requires k == t + 1 && sv == srv && c == ((t + 1) * |s.devices| + srv) as real
    ensures 1 <= k && 0 <= sv && k as real in first
    ensures StandsFor(s, state, first, c, Placement(first[k as real], sv, k))
  {
  }

  /** The task and the server an option code stands for. */
  function DecodeOption(s: TspDrl, state: seq<real>, c: real): (d: Placement)
    requires c in Options(s, ParseStateToRl(s, state).0)
    ensures StandsFor(s, state, ParseStateToRl(s, state).1, c, d)
  {
    DecodeFacts(s, state, c);
    var k := KeyOf(c, |s.devices|);
    Placement(ParseStateToRl(s, state).1[k as real], ServerOf(c, |s.devices|).Floor, k)
  }

  /** predict: with no option the answer is -1 with no cost and nothing is
      recorded. Otherwise the agent's pick is used when it is an option and
      a random option replaces it when not; the answer is the task and
      server that code stands for. While training the pick is recorded
      under the action id with the condensed observation, punished when it
      was not an option. */
  function Predict(s: TspDrl, actionId: int, state: seq<real>, pick: int, draw: nat, cost: Cost): (r: (TspDrl, Answer))
    ensures var rl := ParseStateToRl(s, state).0;
      var options := Options(s, rl);
      && (r.1.action == NoServer <==> |options| == 0)
      && (|options| == 0 ==> r == (s, Answer(NoServer, NO_COST)))
      && (|options| > 0 ==>
            && r.1.action.TaskServer? && r.1.cost == cost
            && r.0 == s.(learner := Record(s.learner, actionId, rl, pick, pick as real in options)))
    ensures r.1.action.TaskServer? ==>
      var options := Options(s, ParseStateToRl(s, state).0);
      exists c, pr: nat ::
        && c in options && (pick as real in options ==> c == pick as real)
        && StandsFor(s, state, ParseStateToRl(s, state).1, c, Placement(r.1.action.task, r.1.action.server, pr))
  {
    var rl := ParseStateToRl(s, state).0;
    var options := Options(s, rl);
    if |options| == 0 then (s, Answer(NoServer, NO_COST))
    else
      var c := Choose(options, pick, draw);
      var d := DecodeOption(s, state, c);
      assert d == Placement(d.task, d.server, d.priority);
      (s.(learner := Record(s.learner, actionId, rl, pick, pick as real in options)), Answer(TaskServer(d.task, d.server), cost))
  }

  /** The coding reaches one priority beyond the agent's actions: the
      network scores codes 0 .. P * N - 1, while an option of priority P is
      coded P * N or more. So a pick within the network's range never
      selects a priority-P task; such a task is only placed by the random
      fallback, and while training the pick is then punished. */
  lemma TopPriorityNeedsFallback(s: TspDrl, actionId: int, state: seq<real>, pick: int, draw: nat, cost: Cost)
    requires 0 <= pick < s.priorities * |s.devices|
    requires var a := Predict(s, actionId, state, pick, draw, cost).1.action;
      a.TaskServer? && a.task < TaskCount(|s.devices|, state) && state[6 * a.task + 5] == s.priorities as real
    ensures pick as real !in Options(s, ParseStateToRl(s, state).0)
    ensures s.learner.training ==>
      Predict(s, actionId, state, pick, draw, cost).1.action.TaskServer? &&
      Predict(s, actionId, state, pick, draw, cost).0.learner.history[actionId].reward == Some(PUNISHING_REWARD)
  {
    var a := Predict(s, actionId, state, pick, draw, cost).1.action;
    var options := Options(s, ParseStateToRl(s, state).0);
    var c, pr: nat :| && c in options && (pick as real in options ==> c == pick as real)
      && StandsFor(s, state, ParseStateToRl(s, state).1, c, Placement(a.task, a.server, pr));
    assert pr == s.priorities;
  }

  // ---------------------------------------------------------------------
  // save_reward and learn

  /** save_reward: the shared rule (first reward wins; a missing entry is a
      key error; nothing while not training). */
  function SaveReward(s: TspDrl, actionId: int, reward: real, cost: Cost): (r: Result<(TspDrl, Cost)>)
    ensures r.Fail? <==> s.learner.training && actionId !in s.learner.history
    ensures r.Ok? ==> r.value.0.devices == s.devices && r.value.0.priorities == s.priorities
    ensures r.Ok? ==> (r.value.0.learner, r.value.1) == DrlHistory.SaveReward(s.learner, actionId, reward, cost).value
  {
    var saved :- DrlHistory.SaveReward(s.learner, actionId, reward, cost);
    Ok((s.(learner := saved.0), saved.1))
  }

  /** learn: while training, the recorded decision becomes an experience
      whose next observation is the condensed new observation; the target
      network is refreshed every 100 steps. */
  function Learn(s: TspDrl, actionId: int, state: seq<real>, cost: Cost): (r: Result<(TspDrl, Learned)>)
    ensures r.Fail? <==> s.learner.training && actionId !in s.learner.history
    ensures r.Ok? ==> r.value.0 == s.(learner := r.value.1.l)
    ensures r.Ok? && s.learner.training ==>
      var e := s.learner.history[actionId];
      && r.value.1.l.agent == StoreTransition(s.learner.agent, Transition(e.state, e.action, e.reward, ParseStateToRl(s, state).0))
      && r.value.1.l.history == s.learner.history - {actionId}
      && (r.value.1.targetUpdated <==> (s.learner.nSteep + 1) % 100 == 0)
    ensures r.Ok? && !s.learner.training ==> r.value.0 == s && r.value.1.cost == NO_COST
  {
    var learned :- DrlHistory.Learn(s.learner, actionId, ParseStateToRl(s, state).0, TARGET_PERIOD, cost);
    Ok((s.(learner := learned.l), learned))
  }

  /** The condensed observation has the width the network reads whenever
      the observation holds the server part. */
  lemma ParsedWidth(devices: seq<Device>, priorities: nat, training: bool, state: seq<real>)
    requires |state| >= 4 * |devices| + 1
    ensures var s := Init(devices, priorities, training);
      |ParseStateToRl(s, state).0| == s.learner.agent.stateDim
  {
  }
}
