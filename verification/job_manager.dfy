/** TSPJobManager: the simulation-wide bookkeeping of the gateway.

    The Java class keeps its state in static fields; here it is one immutable
    `Manager` value threaded through pure transition functions. Per-episode
    maps keyed 0..n-1 become a sequence indexed by episode.
 */
module JobManager {
  import opened Wrappers
  import opened JavaText
  import opened Entities
  import opened TspJob
  import opened Sums

  /** One entry of a completion-time history (HashMap<cloudletId, time>). */
  datatype Entry = Entry(key: int, time: real)

  /** What is recorded for one episode. */
  datatype EpisodeStats = EpisodeStats(
    exceeded: map<int, int>,      // priority -> tasks past their deadline
    exceededIds: seq<int>,        // cloudlet ids of those tasks, in order
    completion: seq<Entry>,       // completion time (with decision time) per cloudlet
    rewards: seq<real>,
    samples: seq<Sample>)         // gateway busy-time samples

  datatype Manager = Manager(
    jobs: map<int, Job>,
    exceededQuantity: int,        // deadline_exceeded_quantity
    totalCompletion: real,        // total_task_completion_time
    totalRunning: real,           // total_task_running_time
    completedQuantity: nat,       // quantity_task_completed
    executing: seq<Task>,         // executing_task
    lastExecutedTaskNo: int,      // the request sequence counter
    deviceBusy: map<int, real>,   // host id -> busy time
    gatewayIdleEnergy: real,
    gatewayBusyEnergy: real,
    realMips: real,               // my_real_gateway_mips
    simMips: real,                // simulated_gateway_mips
    numEpisodes: int,
    currentEpisode: int,
    episodes: seq<EpisodeStats>)

  // ---------------------------------------------------------------------
  // initSimulationVariables

  const PRIORITIES: set<int> := {1, 2, 3, 4, 5}

  function FreshEpisode(): (e: EpisodeStats)
    ensures e.exceeded.Keys == PRIORITIES
    ensures forall p :: p in e.exceeded ==> e.exceeded[p] == 0
    ensures e.exceededIds == [] && e.completion == [] && e.rewards == [] && e.samples == []
  {
    EpisodeStats(map p | p in PRIORITIES :: 0, [], [], [], [])
  }

  /** A fresh manager. The current episode is not reset here: it keeps what
      setEpisodeNumber last set, passed as `currentEpisode`. */
  function Init(realMips: real, simMips: real, hostIds: seq<int>, numEpisodes: int, currentEpisode: int): (m: Manager)
    ensures m.jobs == map[] && m.executing == [] && m.exceededQuantity == 0
    ensures m.completedQuantity == 0 && m.totalCompletion == 0.0 && m.totalRunning == 0.0
    ensures m.lastExecutedTaskNo == 0
    ensures m.gatewayIdleEnergy == -1.0 && m.gatewayBusyEnergy == -1.0
    ensures m.deviceBusy.Keys == set h | h in hostIds
    ensures forall h :: h in m.deviceBusy ==> m.deviceBusy[h] == 0.0
    ensures |m.episodes| == if numEpisodes > 0 then numEpisodes else 0
    ensures forall e :: 0 <= e < |m.episodes| ==> m.episodes[e] == FreshEpisode()
    ensures Consistent(m)
  {
    Manager(map[], 0, 0.0, 0.0, 0, [], 0,
            map h | h in hostIds :: 0.0, -1.0, -1.0,
            realMips, simMips, numEpisodes, currentEpisode,
            seq(if numEpisodes > 0 then numEpisodes else 0, _ => FreshEpisode()))
  }

  /** setEpisodeNumber. */
  function SetEpisodeNumber(m: Manager, episode: int): (m': Manager)
    ensures m'.currentEpisode == episode
    ensures m'.jobs == m.jobs && m'.episodes == m.episodes && m'.numEpisodes == m.numEpisodes
    ensures m'.exceededQuantity == m.exceededQuantity && m'.totalCompletion == m.totalCompletion
    ensures m'.totalRunning == m.totalRunning && m'.completedQuantity == m.completedQuantity
    ensures m'.executing == m.executing && m'.lastExecutedTaskNo == m.lastExecutedTaskNo
    ensures m'.deviceBusy == m.deviceBusy && m'.realMips == m.realMips && m'.simMips == m.simMips
    ensures m'.gatewayIdleEnergy == m.gatewayIdleEnergy && m'.gatewayBusyEnergy == m.gatewayBusyEnergy
  {
    m.(currentEpisode := episode)
  }

  predicate ValidEpisode(m: Manager) {
    0 <= m.currentEpisode < |m.episodes|
  }

  // ---------------------------------------------------------------------
  // createTSPJob: "[[1,2],[3]]" -> [[1, 2], [3]]

  function ParseIntList(tokens: seq<string>): (r: Result<seq<int>>)
    ensures r.Ok? ==> |r.value| == |tokens|
    ensures r.Ok? ==> forall k :: 0 <= k < |tokens| ==> ParseInt(tokens[k]) == Ok(r.value[k])
  {
    if |tokens| == 0 then Ok([])
    else
      var head :- ParseInt(tokens[0]);
      var tail :- ParseIntList(tokens[1..]);
      Ok([head] + tail)
  }

  function ParseGroupList(parts: seq<string>): (r: Result<seq<seq<int>>>)
    ensures r.Ok? ==> |r.value| == |parts|
    ensures r.Ok? ==> forall k :: 0 <= k < |parts| ==> ParseIntList(JavaSplit(parts[k], ",")) == Ok(r.value[k])
  {
    if |parts| == 0 then Ok([])
    else
      var head :- ParseIntList(JavaSplit(parts[0], ","));
      var tail :- ParseGroupList(parts[1..]);
      Ok([head] + tail)
  }

  /** The group string: two characters dropped at each end (substring
      throws when fewer than four remain), split on "],[", then on ",". */
  function ParseGroups(s: string): (r: Result<seq<seq<int>>>)
    ensures |s| < 4 ==> r == Fail(IndexOutOfBounds)
  {
    if |s| < 4 then Fail(IndexOutOfBounds)
    else ParseGroupList(JavaSplit(s[2..|s| - 2], "],["))
  }

  /** createTSPJob: parse both strings and store a new job under `jobId`,
      replacing any previous one; nothing else changes. */
  function CreateTSPJob(m: Manager, jobId: int, maxText: string, groupsText: string): (r: Result<Manager>)
    ensures r.Ok? <==> ParseGroups(groupsText).Ok? && ParseInt(maxText).Ok?
    ensures r.Ok? ==> r.value == m.(jobs := m.jobs[jobId := NewJob(ParseInt(maxText).value, ParseGroups(groupsText).value)])
    ensures ParseGroups(groupsText).Fail? ==> r == Fail(ParseGroups(groupsText).fault)
  {
    var groups :- ParseGroups(groupsText);
    var cap :- ParseInt(maxText);
    Ok(m.(jobs := m.jobs[jobId := NewJob(cap, groups)]))
  }

  /** The dataset's rendering of the groups. */
  function IntTexts(g: seq<int>): (r: seq<string>)
    ensures |r| == |g| && forall k :: 0 <= k < |g| ==> r[k] == IntToText(g[k])
  {
    if |g| == 0 then [] else [IntToText(g[0])] + IntTexts(g[1..])
  }

  function FormatInts(g: seq<int>): string {
    Join(IntTexts(g), ",")
  }

  function GroupTexts(groups: seq<seq<int>>): (r: seq<string>)
    ensures |r| == |groups| && forall k :: 0 <= k < |groups| ==> r[k] == FormatInts(groups[k])
  {
    if |groups| == 0 then [] else [FormatInts(groups[0])] + GroupTexts(groups[1..])
  }

  function FormatGroups(groups: seq<seq<int>>): string {
    "[[" + Join(GroupTexts(groups), "],[") + "]]"
  }

  predicate Int32(n: int) {
    INT_MIN <= n <= INT_MAX
  }

  /** Well-formed groups: at least one group, none empty, 32-bit ids. */
  predicate WellFormedGroups(groups: seq<seq<int>>) {
    && |groups| > 0
    && (forall k :: 0 <= k < |groups| ==> |groups[k]| > 0)
    && (forall k, i :: 0 <= k < |groups| && 0 <= i < |groups[k]| ==> Int32(groups[k][i]))
  }

  lemma {:induction false} ParseIntListRoundTrip(g: seq<int>)
    requires forall i :: 0 <= i < |g| ==> Int32(g[i])
    ensures ParseIntList(IntTexts(g)) == Ok(g)
    decreases |g|
  {
    if |g| > 0 {
      assert [g[0]] + g[1..] == g;
      var ts := IntTexts(g);
      assert ts == [IntToText(g[0])] + IntTexts(g[1..]);
      assert ts[0] == IntToText(g[0]) && ts[1..] == IntTexts(g[1..]);
      ParseIntRoundTrip(g[0]);
      ParseIntListRoundTrip(g[1..]);
      assert ParseIntList(ts) == Ok([g[0]] + g[1..]);
    }
  }

  lemma FormatIntsRoundTrip(g: seq<int>)
    requires |g| > 0 && forall i :: 0 <= i < |g| ==> Int32(g[i])
    ensures ParseIntList(JavaSplit(FormatInts(g), ",")) == Ok(g)
  {
    var tokens := IntTexts(g);
    forall i | 0 <= i < |tokens|
      ensures ","[0] !in tokens[i]
    {
      IntTextChars(g[i], ',');
    }
    SplitJoin(tokens, ",");
    ParseIntListRoundTrip(g);
  }

  lemma {:induction false} ParseGroupListRoundTrip(groups: seq<seq<int>>)
    requires forall k :: 0 <= k < |groups| ==> |groups[k]| > 0
    requires forall k, i :: 0 <= k < |groups| && 0 <= i < |groups[k]| ==> Int32(groups[k][i])
    ensures ParseGroupList(GroupTexts(groups)) == Ok(groups)
    decreases |groups|
  {
    if |groups| > 0 {
      assert [groups[0]] + groups[1..] == groups;
      var ts := GroupTexts(groups);
      assert ts == [FormatInts(groups[0])] + GroupTexts(groups[1..]);
      assert ts[0] == FormatInts(groups[0]) && ts[1..] == GroupTexts(groups[1..]);
      FormatIntsRoundTrip(groups[0]);
      ParseGroupListRoundTrip(groups[1..]);
      ParseGroupListCons(ts, groups[0], groups[1..]);
    }
  }

  /** ParseGroupList reads a list of pieces as its first group before the rest. */
  lemma ParseGroupListCons(parts: seq<string>, head: seq<int>, tail: seq<seq<int>>)
    requires |parts| > 0
    requires ParseIntList(JavaSplit(parts[0], ",")) == Ok(head) && ParseGroupList(parts[1..]) == Ok(tail)
    ensures ParseGroupList(parts) == Ok([head] + tail)
  {
  }

  /** No group text contains ']', the first character of the separator. */
  lemma GroupTextsAvoidBracket(groups: seq<seq<int>>, k: nat)
    requires k < |groups|
    ensures ']' !in GroupTexts(groups)[k]
  {
    var tokens := IntTexts(groups[k]);
    forall i | 0 <= i < |tokens|
      ensures ']' !in tokens[i]
    {
      IntTextChars(groups[k][i], ']');
    }
    JoinAvoids(tokens, ",", ']');
  }

  /** A group list written the way the dataset writes it parses back. */
  lemma ParseGroupsRoundTrip(groups: seq<seq<int>>)
    requires WellFormedGroups(groups)
    ensures ParseGroups(FormatGroups(groups)) == Ok(groups)
  {
    var parts := GroupTexts(groups);
    var inner := Join(parts, "],[");
    var s := FormatGroups(groups);
    assert s[2..|s| - 2] == inner;
    forall k | 0 <= k < |parts|
      ensures "],["[0] !in parts[k]
    {
      GroupTextsAvoidBracket(groups, k);
    }
    assert parts[|parts| - 1] != "" by {
      JoinNonEmpty(IntTexts(groups[|groups| - 1]), ",");
    }
    SplitJoin(parts, "],[");
    ParseGroupListRoundTrip(groups);
  }

  lemma JoinNonEmpty(parts: seq<string>, sep: string)
    requires |parts| > 0 && forall i :: 0 <= i < |parts| ==> |parts[i]| > 0
    ensures |Join(parts, sep)| > 0
  {
  }

  // ---------------------------------------------------------------------
  // Running tasks: addTaskRunning and releaseFinishedTasks

  /** The job references of the tasks of job `j`, as a multiset. */
  function RefsOf(ts: seq<Task>, j: int): multiset<TaskRef>
  {
    if |ts| == 0 then multiset{}
    else (if ts[0].jobId == j then multiset{RefOf(ts[0])} else multiset{}) + RefsOf(ts[1..], j)
  }

  /** A cloudlet id names one task. */
  predicate UniqueIds(ts: seq<Task>) {
    forall u, v :: u in ts && v in ts && u.cloudletId == v.cloudletId ==> u == v
  }

  /** Job `j` runs exactly `refs`, and its counter agrees. */
  predicate JobHolds(jobs: map<int, Job>, j: int, refs: multiset<TaskRef>)
    requires j in jobs
  {
    Counted(jobs[j]) && multiset(jobs[j].running) == refs
  }

  /** The job table agrees with the list of executing tasks: every executing
      task has its job, each job's running list holds exactly its executing
      tasks, each job's counter equals its list's length, and a cloudlet id
      names one task. */
  predicate Consistent(m: Manager) {
    && (forall t :: t in m.executing ==> t.jobId in m.jobs)
    && (forall j :: j in m.jobs ==> JobHolds(m.jobs, j, RefsOf(m.executing, j)))
    && UniqueIds(m.executing)
  }

  /** addTaskRunning: the task joins its job's running list and the
      executing list, carrying its decision time and start time. */
  function AddTaskRunning(m: Manager, t: Task, decisionTime: real, start: real): (m': Manager)
    requires t.jobId in m.jobs
    ensures m'.jobs == m.jobs[t.jobId := AddTasksRunning(m.jobs[t.jobId], RefOf(t))]
    ensures m'.executing == m.executing + [t.(decisionTime := decisionTime, startProcessing := start)]
    ensures m' == m.(jobs := m'.jobs, executing := m'.executing)
  {
    var started := t.(decisionTime := decisionTime, startProcessing := start);
    m.(jobs := m.jobs[t.jobId := AddTasksRunning(m.jobs[t.jobId], RefOf(t))],
       executing := m.executing + [started])
  }

  lemma {:induction false} RefsOfAppend(ts: seq<Task>, us: seq<Task>, j: int)
    ensures RefsOf(ts + us, j) == RefsOf(ts, j) + RefsOf(us, j)
    decreases |ts|
  {
    if |ts| > 0 {
      assert (ts + us)[1..] == ts[1..] + us;
      RefsOfAppend(ts[1..], us, j);
    } else {
      assert ts + us == us;
    }
  }

  lemma RefsOfSingle(t: Task, j: int)
    ensures RefsOf([t], j) == if t.jobId == j then multiset{RefOf(t)} else multiset{}
  {
    assert [t][1..] == [];
  }

  /** Adding a task whose cloudlet is not executing keeps the job table and
      the executing list in agreement. */
  lemma AddKeepsConsistent(m: Manager, t: Task, decisionTime: real, start: real)
    requires Consistent(m) && t.jobId in m.jobs
    requires forall u :: u in m.executing ==> u.cloudletId != t.cloudletId
    ensures Consistent(AddTaskRunning(m, t, decisionTime, start))
  {
    var m' := AddTaskRunning(m, t, decisionTime, start);
    var started := t.(decisionTime := decisionTime, startProcessing := start);
    assert RefOf(started) == RefOf(t);
    forall j | j in m'.jobs
      ensures JobHolds(m'.jobs, j, RefsOf(m'.executing, j))
    {
      RefsOfAppend(m.executing, [started], j);
      RefsOfSingle(started, j);
      assert JobHolds(m.jobs, j, RefsOf(m.executing, j));
      if j == t.jobId {
        assert multiset(m'.jobs[j].running) == multiset(m.jobs[j].running) + multiset{RefOf(t)};
      }
    }
    assert UniqueIds(m'.executing) by {
      forall u, v | u in m'.executing && v in m'.executing && u.cloudletId == v.cloudletId
        ensures u == v
      {
        assert u in m.executing || u == started;
        assert v in m.executing || v == started;
      }
    }
  }

  /** A task is swept out once the kernel has reported a finish time that
      is at or after the sweep time (as written: `>=`, not `<=`). */
  predicate Finished(t: Task, time: real) {
    t.finish != NOT_FINISHED && t.finish >= time
  }

  function Kept(ts: seq<Task>, time: real): (r: seq<Task>)
    ensures forall t :: t in r <==> t in ts && !Finished(t, time)
  {
    if |ts| == 0 then []
    else (if Finished(ts[0], time) then [] else [ts[0]]) + Kept(ts[1..], time)
  }

  function Released(ts: seq<Task>, time: real): (r: seq<Task>)
    ensures forall t :: t in r <==> t in ts && Finished(t, time)
  {
    if |ts| == 0 then []
    else (if Finished(ts[0], time) then [ts[0]] else []) + Released(ts[1..], time)
  }

  /** Sum of finish - arrival over some tasks. */
  function CompletionSum(ts: seq<Task>): real
  {
    if |ts| == 0 then 0.0 else (ts[0].finish - ts[0].arrival) + CompletionSum(ts[1..])
  }

  /** Sum of finish - start over some tasks. */
  function RunningSum(ts: seq<Task>): real
  {
    if |ts| == 0 then 0.0 else (ts[0].finish - ts[0].startProcessing) + RunningSum(ts[1..])
  }

  lemma {:induction false} TaskSumsAppend(ts: seq<Task>, us: seq<Task>)
    ensures CompletionSum(ts + us) == CompletionSum(ts) + CompletionSum(us)
    ensures RunningSum(ts + us) == RunningSum(ts) + RunningSum(us)
    decreases |ts|
  {
    if |ts| > 0 {
      assert (ts + us)[1..] == ts[1..] + us;
      TaskSumsAppend(ts[1..], us);
    } else {
      assert ts + us == us;
    }
  }

  /** HashMap.get on a history. */
  function Lookup(es: seq<Entry>, key: int): (r: Option<real>)
    ensures r.None? <==> forall k :: 0 <= k < |es| ==> es[k].key != key
  {
    if |es| == 0 then None
    else if es[0].key == key then Some(es[0].time)
    else Lookup(es[1..], key)
  }

  /** HashMap.put on a history: replace the value under `key`, or add it. */
  function Put(es: seq<Entry>, key: int, time: real): (r: seq<Entry>)
    ensures Lookup(r, key) == Some(time)
    ensures forall other :: other != key ==> Lookup(r, other) == Lookup(es, other)
  {
    if |es| == 0 then [Entry(key, time)]
    else if es[0].key == key then [Entry(key, time)] + es[1..]
    else
      var r := [es[0]] + Put(es[1..], key, time);
      assert r[1..] == Put(es[1..], key, time);
      r
  }

  /** One finished task leaves its job's running list. */
  function ReleaseJob(jobs: map<int, Job>, t: Task): (r: map<int, Job>)
    requires t.jobId in jobs
    ensures r.Keys == jobs.Keys
    ensures forall j :: j in jobs && j != t.jobId ==> r[j] == jobs[j]
  {
    jobs[t.jobId := RemoveTasksRunning(jobs[t.jobId], RefOf(t))]
  }

  /** The effects of releasing one finished task. */
  function ReleaseOne(m: Manager, t: Task): (m': Manager)
    requires t.jobId in m.jobs && ValidEpisode(m)
    ensures m'.jobs.Keys == m.jobs.Keys && ValidEpisode(m') && |m'.episodes| == |m.episodes|
    ensures m'.completedQuantity == m.completedQuantity + 1
    ensures m'.totalCompletion == m.totalCompletion + (t.finish - t.arrival)
    ensures m'.totalRunning == m.totalRunning + (t.finish - t.startProcessing)
    ensures forall e :: 0 <= e < |m.episodes| && e != m.currentEpisode ==> m'.episodes[e] == m.episodes[e]
    ensures m' == m.(jobs := m'.jobs, totalCompletion := m'.totalCompletion, totalRunning := m'.totalRunning,
                     completedQuantity := m'.completedQuantity, episodes := m'.episodes)
  {
    var e := m.episodes[m.currentEpisode];
    var recorded := e.(completion := Put(e.completion, t.cloudletId, t.finish - t.arrival + t.decisionTime));
    m.(jobs := ReleaseJob(m.jobs, t),
       totalCompletion := m.totalCompletion + (t.finish - t.arrival),
       totalRunning := m.totalRunning + (t.finish - t.startProcessing),
       completedQuantity := m.completedQuantity + 1,
       episodes := m.episodes[m.currentEpisode := recorded])
  }

  /** The sweep over the executing list, in order. */
  function Sweep(m: Manager, ts: seq<Task>, time: real): (m': Manager)
    requires ValidEpisode(m) && forall t :: t in ts ==> t.jobId in m.jobs
    ensures m'.jobs.Keys == m.jobs.Keys && ValidEpisode(m') && |m'.episodes| == |m.episodes|
    ensures m' == m.(jobs := m'.jobs, totalCompletion := m'.totalCompletion, totalRunning := m'.totalRunning,
                     completedQuantity := m'.completedQuantity, episodes := m'.episodes)
    decreases |ts|
  {
    if |ts| == 0 then m
    else
      var next := if Finished(ts[0], time) then ReleaseOne(m, ts[0]) else m;
      Sweep(next, ts[1..], time)
  }

  /** The job table after the sweep, on its own. */
  function SweepJobs(jobs: map<int, Job>, ts: seq<Task>, time: real): (r: map<int, Job>)
    requires forall t :: t in ts ==> t.jobId in jobs
    ensures r.Keys == jobs.Keys
    decreases |ts|
  {
    if |ts| == 0 then jobs
    else SweepJobs(if Finished(ts[0], time) then ReleaseJob(jobs, ts[0]) else jobs, ts[1..], time)
  }

  /** The completion history after the sweep, on its own. */
  function SweepHistory(h: seq<Entry>, ts: seq<Task>, time: real): seq<Entry>
    decreases |ts|
  {
    if |ts| == 0 then h
    else
      var t := ts[0];
      SweepHistory(if Finished(t, time) then Put(h, t.cloudletId, t.finish - t.arrival + t.decisionTime) else h,
                   ts[1..], time)
  }

  /** The sweep changes the job table as the table-only sweep does, the
      current episode's history as the history-only sweep does, and no other
      episode. */
  lemma {:induction false} SweepParts(m: Manager, ts: seq<Task>, time: real)
    requires ValidEpisode(m) && forall t :: t in ts ==> t.jobId in m.jobs
    ensures Sweep(m, ts, time).jobs == SweepJobs(m.jobs, ts, time)
    ensures Sweep(m, ts, time).episodes[m.currentEpisode]
            == m.episodes[m.currentEpisode].(completion := SweepHistory(m.episodes[m.currentEpisode].completion, ts, time))
    ensures forall e :: 0 <= e < |m.episodes| && e != m.currentEpisode ==> Sweep(m, ts, time).episodes[e] == m.episodes[e]
    decreases |ts|
  {
    if |ts| > 0 {
      var next := if Finished(ts[0], time) then ReleaseOne(m, ts[0]) else m;
      assert forall u :: u in ts[1..] ==> u in ts;
      SweepParts(next, ts[1..], time);
    }
  }

  /** The sweep adds each released task's completion and running time and
      counts it once. */
  lemma {:induction false} SweepTotals(m: Manager, ts: seq<Task>, time: real)
    requires ValidEpisode(m) && forall t :: t in ts ==> t.jobId in m.jobs
    ensures Sweep(m, ts, time).completedQuantity == m.completedQuantity + |Released(ts, time)|
    ensures Sweep(m, ts, time).totalCompletion == m.totalCompletion + CompletionSum(Released(ts, time))
    ensures Sweep(m, ts, time).totalRunning == m.totalRunning + RunningSum(Released(ts, time))
    decreases |ts|
  {
    if |ts| > 0 {
      var t := ts[0];
      var next := if Finished(t, time) then ReleaseOne(m, t) else m;
      assert forall u :: u in ts[1..] ==> u in ts;
      SweepTotals(next, ts[1..], time);
      var head := if Finished(t, time) then [t] else [];
      assert Released(ts, time) == head + Released(ts[1..], time);
      TaskSumsAppend(head, Released(ts[1..], time));
      assert head == [] || head[1..] == [];
    }
  }

  /** releaseFinishedTasks: the sweep, then the finished tasks leave the
      executing list. Each released task adds finish - arrival to the total
      completion time, finish - start to the total running time and one to
      the completed count, leaves its job's running list and has its
      completion time recorded in the current episode's history; no other
      episode and no other field changes. */
  function ReleaseFinishedTasks(m: Manager, time: real): (m': Manager)
    requires ValidEpisode(m) && forall t :: t in m.executing ==> t.jobId in m.jobs
    ensures forall t :: t in m'.executing <==> t in m.executing && !Finished(t, time)
    ensures m'.completedQuantity == m.completedQuantity + |Released(m.executing, time)|
    ensures m'.totalCompletion == m.totalCompletion + CompletionSum(Released(m.executing, time))
    ensures m'.totalRunning == m.totalRunning + RunningSum(Released(m.executing, time))
    ensures m'.jobs == SweepJobs(m.jobs, m.executing, time)
    ensures ValidEpisode(m') && |m'.episodes| == |m.episodes|
    ensures m'.episodes[m.currentEpisode]
            == m.episodes[m.currentEpisode].(completion := SweepHistory(m.episodes[m.currentEpisode].completion, m.executing, time))
    ensures forall e :: 0 <= e < |m.episodes| && e != m.currentEpisode ==> m'.episodes[e] == m.episodes[e]
    ensures m' == m.(jobs := m'.jobs, totalCompletion := m'.totalCompletion, totalRunning := m'.totalRunning,
                     completedQuantity := m'.completedQuantity, episodes := m'.episodes,
                     executing := m'.executing)
  {
    SweepTotals(m, m.executing, time);
    SweepParts(m, m.executing, time);
    Sweep(m, m.executing, time).(executing := Kept(m.executing, time))
  }

  lemma {:induction false} RefsOfMember(ts: seq<Task>, j: int, y: TaskRef)
    requires y in RefsOf(ts, j)
    ensures exists u :: u in ts && u.jobId == j && RefOf(u) == y
    decreases |ts|
  {
    if |ts| > 0 && !(ts[0].jobId == j && RefOf(ts[0]) == y) {
      RefsOfMember(ts[1..], j, y);
      var u :| u in ts[1..] && u.jobId == j && RefOf(u) == y;
      assert u in ts;
    }
  }

  /** Under unique ids, the only reference a job can hold for the cloudlet
      of a task still to be visited is that task's own. */
  lemma OnlyRefForCloudlet(jobs: map<int, Job>, kept: seq<Task>, ts: seq<Task>, y: TaskRef)
    requires |ts| > 0 && ts[0].jobId in jobs && UniqueIds(kept + ts)
    requires JobHolds(jobs, ts[0].jobId, RefsOf(kept, ts[0].jobId) + RefsOf(ts, ts[0].jobId))
    requires y in jobs[ts[0].jobId].running && y.cloudletId == ts[0].cloudletId
    ensures y == RefOf(ts[0])
  {
    var t := ts[0];
    assert y in multiset(jobs[t.jobId].running);
    RefsOfAppend(kept, ts, t.jobId);
    RefsOfMember(kept + ts, t.jobId, y);
    var u :| u in kept + ts && u.jobId == t.jobId && RefOf(u) == y;
    assert t in kept + ts;
  }

  /** Removing a reference that is the job's only entry for its cloudlet
      takes exactly that reference away and keeps the counter right. */
  lemma RemoveHeldRef(job: Job, x: TaskRef, others: multiset<TaskRef>)
    requires Counted(job) && multiset(job.running) == others + multiset{x}
    requires forall y :: y in job.running && y.cloudletId == x.cloudletId ==> y == x
    ensures Counted(RemoveTasksRunning(job, x))
    ensures multiset(RemoveTasksRunning(job, x).running) == others
  {
    RemoveFirstMultiset(job.running, x);
    assert x in multiset(job.running);
    var k :| 0 <= k < |job.running| && job.running[k] == x;
    RemoveKeepsCountedIffPresent(job, x);
  }

  lemma RefsOfCons(ts: seq<Task>, j: int)
    requires |ts| > 0
    ensures ts[0].jobId == j ==> RefsOf(ts, j) == RefsOf(ts[1..], j) + multiset{RefOf(ts[0])}
    ensures ts[0].jobId != j ==> RefsOf(ts, j) == RefsOf(ts[1..], j)
  {
  }

  lemma ConcatAssoc(a: seq<Task>, b: seq<Task>, c: seq<Task>)
    ensures (a + b) + c == a + (b + c)
  {
  }

  /** A subsequence of tasks with unique ids has unique ids. */
  lemma UniqueIdsWithin(a: seq<Task>, b: seq<Task>)
    requires UniqueIds(b) && forall u :: u in a ==> u in b
    ensures UniqueIds(a)
  {
  }

  /** Every job holds the references of the tasks kept so far plus those of
      the tasks still to visit. */
  predicate AllHold(jobs: map<int, Job>, kept: seq<Task>, ts: seq<Task>) {
    forall j :: j in jobs ==> JobHolds(jobs, j, RefsOf(kept, j) + RefsOf(ts, j))
  }

  /** Releasing the next task removes exactly its reference from its job. */
  lemma ReleaseStepRunning(jobs: map<int, Job>, kept: seq<Task>, ts: seq<Task>)
    requires |ts| > 0 && ts[0].jobId in jobs && UniqueIds(kept + ts)
    requires AllHold(jobs, kept, ts)
    ensures AllHold(ReleaseJob(jobs, ts[0]), kept, ts[1..])
  {
    var t := ts[0];
    var next := ReleaseJob(jobs, t);
    var job := jobs[t.jobId];
    assert JobHolds(jobs, t.jobId, RefsOf(kept, t.jobId) + RefsOf(ts, t.jobId));
    forall y | y in job.running && y.cloudletId == t.cloudletId
      ensures y == RefOf(t)
    {
      OnlyRefForCloudlet(jobs, kept, ts, y);
    }
    RefsOfCons(ts, t.jobId);
    RemoveHeldRef(job, RefOf(t), RefsOf(kept, t.jobId) + RefsOf(ts[1..], t.jobId));
    forall j | j in next
      ensures JobHolds(next, j, RefsOf(kept, j) + RefsOf(ts[1..], j))
    {
      if j != t.jobId {
        assert JobHolds(jobs, j, RefsOf(kept, j) + RefsOf(ts, j));
        RefsOfCons(ts, j);
      }
    }
  }

  /** Keeping the next task moves its reference from "to visit" to "kept". */
  lemma KeepStepRunning(jobs: map<int, Job>, kept: seq<Task>, ts: seq<Task>)
    requires |ts| > 0 && AllHold(jobs, kept, ts)
    ensures AllHold(jobs, kept + [ts[0]], ts[1..])
  {
    forall j | j in jobs
      ensures JobHolds(jobs, j, RefsOf(kept + [ts[0]], j) + RefsOf(ts[1..], j))
    {
      assert JobHolds(jobs, j, RefsOf(kept, j) + RefsOf(ts, j));
      RefsOfAppend(kept, [ts[0]], j);
      RefsOfSingle(ts[0], j);
      RefsOfCons(ts, j);
    }
  }

  /** The inductive core of the sweep: the running lists always hold the
      references of the tasks kept so far plus those still to be visited,
      so at the end they hold exactly the kept tasks' references. */
  lemma {:induction false} SweepKeepsRunning(jobs: map<int, Job>, kept: seq<Task>, ts: seq<Task>, time: real)
    requires forall t :: t in ts ==> t.jobId in jobs
    requires UniqueIds(kept + ts) && AllHold(jobs, kept, ts)
    ensures AllHold(SweepJobs(jobs, ts, time), kept + Kept(ts, time), [])
    decreases |ts|
  {
    if |ts| == 0 {
      assert kept + Kept(ts, time) == kept;
      assert SweepJobs(jobs, ts, time) == jobs;
    } else if Finished(ts[0], time) {
      SweepReleaseStep(jobs, kept, ts, time);
      SweepKeepsRunning(ReleaseJob(jobs, ts[0]), kept, ts[1..], time);
    } else {
      SweepKeepStep(jobs, kept, ts, time);
      SweepKeepsRunning(jobs, kept + [ts[0]], ts[1..], time);
    }
  }

  /** A finished task: the sweep goes on from the released table, and the
      invariant holds there for the remaining tasks. */
  lemma SweepReleaseStep(jobs: map<int, Job>, kept: seq<Task>, ts: seq<Task>, time: real)
    requires |ts| > 0 && Finished(ts[0], time)
    requires forall t :: t in ts ==> t.jobId in jobs
    requires UniqueIds(kept + ts) && AllHold(jobs, kept, ts)
    ensures forall u :: u in ts[1..] ==> u.jobId in ReleaseJob(jobs, ts[0])
    ensures UniqueIds(kept + ts[1..]) && AllHold(ReleaseJob(jobs, ts[0]), kept, ts[1..])
    ensures SweepJobs(jobs, ts, time) == SweepJobs(ReleaseJob(jobs, ts[0]), ts[1..], time)
    ensures Kept(ts, time) == Kept(ts[1..], time)
  {
    assert forall u :: u in ts[1..] ==> u in ts;
    UniqueIdsWithin(kept + ts[1..], kept + ts);
    ReleaseStepRunning(jobs, kept, ts);
  }

  /** A task still running: the sweep goes on from the same table, with the
      task counted among the kept ones. */
  lemma SweepKeepStep(jobs: map<int, Job>, kept: seq<Task>, ts: seq<Task>, time: real)
    requires |ts| > 0 && !Finished(ts[0], time)
    requires forall t :: t in ts ==> t.jobId in jobs
    requires UniqueIds(kept + ts) && AllHold(jobs, kept, ts)
    ensures forall u :: u in ts[1..] ==> u.jobId in jobs
    ensures UniqueIds((kept + [ts[0]]) + ts[1..]) && AllHold(jobs, kept + [ts[0]], ts[1..])
    ensures SweepJobs(jobs, ts, time) == SweepJobs(jobs, ts[1..], time)
    ensures kept + Kept(ts, time) == (kept + [ts[0]]) + Kept(ts[1..], time)
  {
    var t, rest := ts[0], ts[1..];
    assert ts == [t] + rest;
    ConcatAssoc(kept, [t], rest);
    assert (kept + [t]) + rest == kept + ts;
    assert forall u :: u in rest ==> u in ts;
    assert Kept(ts, time) == [t] + Kept(rest, time);
    ConcatAssoc(kept, [t], Kept(rest, time));
    KeepStepRunning(jobs, kept, ts);
  }

  /** The sweep keeps the job table and the executing list in agreement:
      each released task leaves both its job's running list and the
      executing list, and every other task stays in both. */
  lemma ReleaseKeepsConsistent(m: Manager, time: real)
    requires Consistent(m) && ValidEpisode(m)
    ensures Consistent(ReleaseFinishedTasks(m, time))
  {
    var m' := ReleaseFinishedTasks(m, time);
    assert [] + m.executing == m.executing;
    forall j | j in m.jobs
      ensures JobHolds(m.jobs, j, RefsOf([], j) + RefsOf(m.executing, j))
    {
      assert JobHolds(m.jobs, j, RefsOf(m.executing, j));
    }
    SweepKeepsRunning(m.jobs, [], m.executing, time);
    SweepParts(m, m.executing, time);
    assert [] + Kept(m.executing, time) == m'.executing;
    forall j | j in m'.jobs
      ensures JobHolds(m'.jobs, j, RefsOf(m'.executing, j))
    {
      assert JobHolds(m'.jobs, j, RefsOf(m'.executing, j) + RefsOf([], j));
    }
    UniqueIdsWithin(m'.executing, m.executing);
  }

  // ---------------------------------------------------------------------
  // The kernel's completion write

  /** The executing list once the kernel has written `finish` into the
      shared task object of cloudlet `id`: entries with that cloudlet id
      carry the new finish time, every other entry is as it was. */
  function WithFinish(ts: seq<Task>, id: int, finish: real): (r: seq<Task>)
    ensures |r| == |ts|
    ensures forall k :: 0 <= k < |ts| ==> r[k] == if ts[k].cloudletId == id then ts[k].(finish := finish) else ts[k]
  {
    seq(|ts|, k requires 0 <= k < |ts| => if ts[k].cloudletId == id then ts[k].(finish := finish) else ts[k])
  }

  /** The returned cloudlet `c` is the TSPTask the placement step stored in
      executing_task, so CloudSim's completion reaches that list: the
      executing entries of its cloudlet now carry its finish time, the
      other entries and every other field are untouched, and the job
      table stays consistent with the executing tasks. */
  function RecordFinish(m: Manager, c: Task): (m': Manager)
    ensures m' == m.(executing := m'.executing)
    ensures |m'.executing| == |m.executing|
    ensures forall k :: 0 <= k < |m.executing| ==>
      && m'.executing[k].(finish := m.executing[k].finish) == m.executing[k]
      && (m.executing[k].cloudletId == c.cloudletId ==> m'.executing[k].finish == c.finish)
      && (m.executing[k].cloudletId != c.cloudletId ==> m'.executing[k] == m.executing[k])
    ensures Consistent(m) ==> Consistent(m')
  {
    var m' := m.(executing := WithFinish(m.executing, c.cloudletId, c.finish));
    assert Consistent(m) ==> Consistent(m') by {
      if Consistent(m) {
        WithFinishKeepsConsistent(m, c.cloudletId, c.finish);
      }
    }
    m'
  }

  /** Changing finish times leaves every job's running references alone. */
  lemma {:induction false} RefsOfIgnoresFinish(ts: seq<Task>, id: int, finish: real, j: int)
    ensures RefsOf(WithFinish(ts, id, finish), j) == RefsOf(ts, j)
    decreases |ts|
  {
    if |ts| > 0 {
      assert WithFinish(ts, id, finish)[1..] == WithFinish(ts[1..], id, finish);
      RefsOfIgnoresFinish(ts[1..], id, finish, j);
    }
  }

  /** An entry of the rewritten list comes from an entry at the same place. */
  lemma WithFinishMember(ts: seq<Task>, id: int, finish: real, t: Task) returns (k: nat)
    requires t in WithFinish(ts, id, finish)
    ensures k < |ts| && WithFinish(ts, id, finish)[k] == t
    ensures t.jobId == ts[k].jobId && t.cloudletId == ts[k].cloudletId && ts[k] in ts
  {
    var r := WithFinish(ts, id, finish);
    k :| 0 <= k < |r| && r[k] == t;
  }

  lemma WithFinishJobs(ts: seq<Task>, id: int, finish: real, jobs: map<int, Job>)
    requires forall t :: t in ts ==> t.jobId in jobs
    ensures forall t :: t in WithFinish(ts, id, finish) ==> t.jobId in jobs
  {
    forall t | t in WithFinish(ts, id, finish)
      ensures t.jobId in jobs
    {
      var k := WithFinishMember(ts, id, finish, t);
    }
  }

  lemma WithFinishUnique(ts: seq<Task>, id: int, finish: real)
    requires UniqueIds(ts)
    ensures UniqueIds(WithFinish(ts, id, finish))
  {
    var r := WithFinish(ts, id, finish);
    forall u, v | u in r && v in r && u.cloudletId == v.cloudletId
      ensures u == v
    {
      var i := WithFinishMember(ts, id, finish, u);
      var k := WithFinishMember(ts, id, finish, v);
      assert ts[i] == ts[k];
    }
  }

  lemma WithFinishKeepsConsistent(m: Manager, id: int, finish: real)
    requires Consistent(m)
    ensures Consistent(m.(executing := WithFinish(m.executing, id, finish)))
  {
    var ex := WithFinish(m.executing, id, finish);
    WithFinishJobs(m.executing, id, finish, m.jobs);
    forall j | j in m.jobs
      ensures JobHolds(m.jobs, j, RefsOf(ex, j))
    {
      RefsOfIgnoresFinish(m.executing, id, finish, j);
    }
    WithFinishUnique(m.executing, id, finish);
  }

  /** Some executing entry belongs to cloudlet `id`. */
  predicate IsExecuting(m: Manager, id: int) {
    exists t :: t in m.executing && t.cloudletId == id
  }

  /** The recorded entry of an executing cloudlet carries its finish time. */
  lemma RecordedEntry(m: Manager, c: Task) returns (u: Task)
    requires IsExecuting(m, c.cloudletId)
    ensures u in RecordFinish(m, c).executing && u.cloudletId == c.cloudletId && u.finish == c.finish
  {
    var t0 :| t0 in m.executing && t0.cloudletId == c.cloudletId;
    var k0 :| 0 <= k0 < |m.executing| && m.executing[k0] == t0;
    u := RecordFinish(m, c).executing[k0];
  }

  /** After the recording every entry of that cloudlet carries its finish. */
  lemma RecordedEntries(m: Manager, c: Task, t: Task)
    requires t in RecordFinish(m, c).executing && t.cloudletId == c.cloudletId
    ensures t.finish == c.finish
  {
    var k := WithFinishMember(m.executing, c.cloudletId, c.finish, t);
  }

  /** Once the finish time of an executing cloudlet is recorded, the release
      at clock `time` takes it out of the executing list exactly when
      `finish >= time`, the comparison releaseFinishedTasks makes; so the
      update CloudSim schedules at the completion clock releases it, and a
      later one, which compares a clock past the finish, does not. */
  lemma ReturnReleasedAt(m: Manager, c: Task, time: real)
    requires ValidEpisode(m) && forall t :: t in m.executing ==> t.jobId in m.jobs
    requires c.finish != NOT_FINISHED && IsExecuting(m, c.cloudletId)
    ensures var m1 := RecordFinish(m, c);
      ValidEpisode(m1) && forall t :: t in m1.executing ==> t.jobId in m1.jobs
    ensures IsExecuting(ReleaseFinishedTasks(RecordFinish(m, c), time), c.cloudletId) <==> time > c.finish
    ensures time <= c.finish ==> |Released(RecordFinish(m, c).executing, time)| >= 1
  {
    var m1 := RecordFinish(m, c);
    WithFinishJobs(m.executing, c.cloudletId, c.finish, m.jobs);
    var m2 := ReleaseFinishedTasks(m1, time);
    var u := RecordedEntry(m, c);
    if time > c.finish {
      assert u in m2.executing;
    } else {
      assert u in Released(m1.executing, time);
      forall t | t in m2.executing
        ensures t.cloudletId != c.cloudletId
      {
        if t.cloudletId == c.cloudletId {
          RecordedEntries(m, c, t);
        }
      }
    }
  }

  /** A sweep over tasks with other cloudlet ids keeps a history entry. */
  lemma {:induction false} SweepKeepsLookup(h: seq<Entry>, ts: seq<Task>, time: real, key: int)
    requires forall t :: t in ts ==> t.cloudletId != key
    ensures Lookup(SweepHistory(h, ts, time), key) == Lookup(h, key)
    decreases |ts|
  {
    if |ts| > 0 {
      var t := ts[0];
      var next := if Finished(t, time) then Put(h, t.cloudletId, t.finish - t.arrival + t.decisionTime) else h;
      assert SweepHistory(h, ts, time) == SweepHistory(next, ts[1..], time);
      assert Lookup(SweepHistory(next, ts[1..], time), key) == Lookup(h, key) by {
        assert forall u :: u in ts[1..] ==> u in ts;
        SweepKeepsLookup(next, ts[1..], time, key);
      }
    }
  }

  /** Every task released by a sweep has its completion time (including its
      decision time) recorded in the history. */
  lemma {:induction false} SweepRecordsHistory(h: seq<Entry>, ts: seq<Task>, time: real)
    requires UniqueIds(ts)
    ensures forall t :: t in Released(ts, time) ==>
      Lookup(SweepHistory(h, ts, time), t.cloudletId) == Some(t.finish - t.arrival + t.decisionTime)
    decreases |ts|
  {
    if |ts| > 0 {
      var t := ts[0];
      var rest := ts[1..];
      var next := if Finished(t, time) then Put(h, t.cloudletId, t.finish - t.arrival + t.decisionTime) else h;
      var after := SweepHistory(next, rest, time);
      assert SweepHistory(h, ts, time) == after;
      assert forall u :: u in Released(rest, time) ==>
        Lookup(after, u.cloudletId) == Some(u.finish - u.arrival + u.decisionTime) by {
        UniqueIdsWithin(rest, ts);
        SweepRecordsHistory(next, rest, time);
      }
      if Finished(t, time) && t !in rest {
        assert Lookup(after, t.cloudletId) == Some(t.finish - t.arrival + t.decisionTime) by {
          forall u | u in rest
            ensures u.cloudletId != t.cloudletId
          {
            assert u != t;
          }
          SweepKeepsLookup(next, rest, time, t.cloudletId);
        }
      }
      assert forall u :: u in ts ==> u == t || u in rest;
    }
  }

  // ---------------------------------------------------------------------
  // Averages of completion and running time

  /** getAvgTaskCompletionTime; None stands for the NaN of 0.0 / 0. */
  function AvgTaskCompletionTime(m: Manager): (r: Option<real>)
    ensures r.None? <==> m.completedQuantity == 0
    ensures r.Some? ==> r.value * m.completedQuantity as real == m.totalCompletion
  {
    Ratio(m.totalCompletion, m.completedQuantity)
  }

  /** getAvgTaskCompletionTime(x): the average if one more task, taking x,
      had completed. */
  function AvgTaskCompletionTimeWith(m: Manager, x: real): (r: real)
    ensures r * (m.completedQuantity + 1) as real == m.totalCompletion + x
  {
    (m.totalCompletion + x) / (m.completedQuantity + 1) as real
  }

  function AvgTaskRunningTime(m: Manager): (r: Option<real>)
    ensures r.None? <==> m.completedQuantity == 0
    ensures r.Some? ==> r.value * m.completedQuantity as real == m.totalRunning
  {
    Ratio(m.totalRunning, m.completedQuantity)
  }

  function AvgTaskRunningTimeWith(m: Manager, x: real): (r: real)
    ensures r * (m.completedQuantity + 1) as real == m.totalRunning + x
  {
    (m.totalRunning + x) / (m.completedQuantity + 1) as real
  }

  /** The look-ahead averages are exactly the averages after releasing one
      more finished task with those completion and running times. */
  lemma AvgWithMatchesRelease(m: Manager, t: Task)
    requires t.jobId in m.jobs && ValidEpisode(m)
    ensures AvgTaskCompletionTime(ReleaseOne(m, t)) == Some(AvgTaskCompletionTimeWith(m, t.finish - t.arrival))
    ensures AvgTaskRunningTime(ReleaseOne(m, t)) == Some(AvgTaskRunningTimeWith(m, t.finish - t.startProcessing))
  {
  }

  // ---------------------------------------------------------------------
  // Deadline violations

  /** A priority's counter in one episode; a missing entry counts as zero
      (registerTaskExceedingDeadline's containsKey branch). */
  function CountOf(exceeded: map<int, int>, p: int): int {
    if p in exceeded then exceeded[p] else 0
  }

  /** registerTaskExceedingDeadline: the global total grows by one, the
      current episode's counter for the task's priority grows by one and the
      task's cloudlet id joins the current episode's list; nothing else
      changes. */
  function RegisterTaskExceedingDeadline(m: Manager, t: Task): (m': Manager)
    requires ValidEpisode(m)
    ensures m'.exceededQuantity == m.exceededQuantity + 1
    ensures |m'.episodes| == |m.episodes|
    ensures CountOf(m'.episodes[m.currentEpisode].exceeded, t.priority)
            == CountOf(m.episodes[m.currentEpisode].exceeded, t.priority) + 1
    ensures forall p :: p != t.priority ==>
              CountOf(m'.episodes[m.currentEpisode].exceeded, p) == CountOf(m.episodes[m.currentEpisode].exceeded, p)
    ensures m'.episodes[m.currentEpisode].exceededIds == m.episodes[m.currentEpisode].exceededIds + [t.cloudletId]
    ensures m'.episodes[m.currentEpisode].completion == m.episodes[m.currentEpisode].completion
    ensures m'.episodes[m.currentEpisode].rewards == m.episodes[m.currentEpisode].rewards
    ensures m'.episodes[m.currentEpisode].samples == m.episodes[m.currentEpisode].samples
    ensures forall e :: 0 <= e < |m.episodes| && e != m.currentEpisode ==> m'.episodes[e] == m.episodes[e]
    ensures m' == m.(exceededQuantity := m'.exceededQuantity, episodes := m'.episodes)
  {
    var e := m.episodes[m.currentEpisode];
    var counted := e.(exceeded := e.exceeded[t.priority := CountOf(e.exceeded, t.priority) + 1],
                      exceededIds := e.exceededIds + [t.cloudletId]);
    m.(exceededQuantity := m.exceededQuantity + 1, episodes := m.episodes[m.currentEpisode := counted])
  }

  /** The per-episode counters for one priority, summed over episodes. */
  function ExceededOver(es: seq<EpisodeStats>, p: int): int {
    if |es| == 0 then 0 else CountOf(es[0].exceeded, p) + ExceededOver(es[1..], p)
  }

  /** getQuantityOfExceededDeadline(priority): the sum over every episode,
      an episode without that priority adding nothing. */
  function QuantityOfExceededDeadline(m: Manager, p: int): (r: int)
    ensures (forall e :: 0 <= e < |m.episodes| ==> CountOf(m.episodes[e].exceeded, p) == 0) ==> r == 0
    ensures (forall e :: 0 <= e < |m.episodes| ==> CountOf(m.episodes[e].exceeded, p) >= 0) ==>
              forall e :: 0 <= e < |m.episodes| ==> CountOf(m.episodes[e].exceeded, p) <= r
  {
    ExceededOverBounds(m.episodes, p);
    ExceededOver(m.episodes, p)
  }

  /** The sum is 0 when every episode's counter is 0 or absent, and, with no
      negative counter, at least each episode's own counter. */
  lemma {:induction false} ExceededOverBounds(es: seq<EpisodeStats>, p: int)
    ensures (forall e :: 0 <= e < |es| ==> CountOf(es[e].exceeded, p) == 0) ==> ExceededOver(es, p) == 0
    ensures (forall e :: 0 <= e < |es| ==> CountOf(es[e].exceeded, p) >= 0) ==>
              ExceededOver(es, p) >= 0 && forall e :: 0 <= e < |es| ==> CountOf(es[e].exceeded, p) <= ExceededOver(es, p)
    decreases |es|
  {
    if |es| > 0 {
      ExceededOverBounds(es[1..], p);
      assert forall e :: 1 <= e < |es| ==> es[e] == es[1..][e - 1];
    }
  }

  lemma {:induction false} ExceededOverUpdate(es: seq<EpisodeStats>, i: nat, e: EpisodeStats, p: int)
    requires i < |es|
    ensures ExceededOver(es[i := e], p) == ExceededOver(es, p) - CountOf(es[i].exceeded, p) + CountOf(e.exceeded, p)
    decreases |es|
  {
    if i > 0 {
      assert es[i := e][1..] == es[1..][i - 1 := e];
      ExceededOverUpdate(es[1..], i - 1, e, p);
    } else {
      assert es[i := e][1..] == es[1..];
    }
  }

  /** Registering a violation raises the all-episode count of exactly the
      task's priority, by one. */
  lemma RegisterRaisesOnePriority(m: Manager, t: Task, p: int)
    requires ValidEpisode(m)
    ensures QuantityOfExceededDeadline(RegisterTaskExceedingDeadline(m, t), p)
            == QuantityOfExceededDeadline(m, p) + (if p == t.priority then 1 else 0)
  {
    var m' := RegisterTaskExceedingDeadline(m, t);
    assert m'.episodes == m.episodes[m.currentEpisode := m'.episodes[m.currentEpisode]];
    ExceededOverUpdate(m.episodes, m.currentEpisode, m'.episodes[m.currentEpisode], p);
  }

  /** A deadline violation registered while `episode` was the current one. */
  datatype Violation = Violation(episode: int, task: Task)

  /** The bookkeeping of a run: for each violation in turn, the episode is
      set and the task registered. */
  function RegisterEach(m: Manager, vs: seq<Violation>): (m': Manager)
    requires forall k :: 0 <= k < |vs| ==> 0 <= vs[k].episode < |m.episodes|
    ensures |m'.episodes| == |m.episodes|
    decreases |vs|
  {
    if |vs| == 0 then m
    else
      var m1 := RegisterTaskExceedingDeadline(SetEpisodeNumber(m, vs[0].episode), vs[0].task);
      RegisterEach(m1, vs[1..])
  }

  /** How many of the violations are of priority `p`. */
  function PriorityCount(vs: seq<Violation>, p: int): nat
  {
    if |vs| == 0 then 0 else (if vs[0].task.priority == p then 1 else 0) + PriorityCount(vs[1..], p)
  }

  /** Every registration adds one to the all-episode count of its priority,
      whichever episode it was made in. */
  lemma {:induction false} RegisterEachCounts(m: Manager, vs: seq<Violation>, p: int)
    requires forall k :: 0 <= k < |vs| ==> 0 <= vs[k].episode < |m.episodes|
    ensures QuantityOfExceededDeadline(RegisterEach(m, vs), p) == QuantityOfExceededDeadline(m, p) + PriorityCount(vs, p)
    decreases |vs|
  {
    if |vs| > 0 {
      var m0 := SetEpisodeNumber(m, vs[0].episode);
      var m1 := RegisterTaskExceedingDeadline(m0, vs[0].task);
      RegisterRaisesOnePriority(m0, vs[0].task, p);
      assert QuantityOfExceededDeadline(m0, p) == QuantityOfExceededDeadline(m, p);
      RegisterEachCounts(m1, vs[1..], p);
    }
  }

  /** A fresh manager has counted nothing for any priority. */
  lemma InitExceededZero(realMips: real, simMips: real, hostIds: seq<int>, numEpisodes: int, currentEpisode: int, p: int)
    ensures QuantityOfExceededDeadline(Init(realMips, simMips, hostIds, numEpisodes, currentEpisode), p) == 0
  {
    var m := Init(realMips, simMips, hostIds, numEpisodes, currentEpisode);
    forall e | 0 <= e < |m.episodes|
      ensures CountOf(m.episodes[e].exceeded, p) == 0
    {
      assert m.episodes[e] == FreshEpisode();
    }
  }

  /** getQuantityOfExceededDeadline(p) after a run from a fresh manager is
      the number of violations of priority `p` registered in it, over all
      episodes. */
  lemma ExceededCountsRegistrations(realMips: real, simMips: real, hostIds: seq<int>, numEpisodes: int,
                                    currentEpisode: int, vs: seq<Violation>, p: int)
    requires forall k :: 0 <= k < |vs| ==> 0 <= vs[k].episode < numEpisodes
    ensures var m := Init(realMips, simMips, hostIds, numEpisodes, currentEpisode);
      QuantityOfExceededDeadline(RegisterEach(m, vs), p) == PriorityCount(vs, p)
  {
    var m := Init(realMips, simMips, hostIds, numEpisodes, currentEpisode);
    InitExceededZero(realMips, simMips, hostIds, numEpisodes, currentEpisode, p);
    RegisterEachCounts(m, vs, p);
  }

  /** getQuantityOfExceededDeadline(episode, priority): Java unboxes the
      map entry, so a missing episode or priority throws. */
  function QuantityOfExceededDeadlineIn(m: Manager, episode: int, p: int): (r: Result<int>)
    ensures r.Ok? <==> 0 <= episode < |m.episodes| && p in m.episodes[episode].exceeded
    ensures r.Ok? ==> r.value == m.episodes[episode].exceeded[p]
    ensures r.Fail? ==> r.fault == NullReference
  {
    if 0 <= episode < |m.episodes| && p in m.episodes[episode].exceeded then Ok(m.episodes[episode].exceeded[p])
    else Fail(NullReference)
  }

  /** getDeadlineExceededIds(): every episode's ids, episode by episode. */
  function AllExceededIds(es: seq<EpisodeStats>): seq<int> {
    if |es| == 0 then [] else es[0].exceededIds + AllExceededIds(es[1..])
  }

  lemma {:induction false} AllExceededIdsUpdate(es: seq<EpisodeStats>, i: nat, e: EpisodeStats)
    requires i < |es|
    ensures |AllExceededIds(es[i := e])| == |AllExceededIds(es)| - |es[i].exceededIds| + |e.exceededIds|
    decreases |es|
  {
    if i > 0 {
      assert es[i := e][1..] == es[1..][i - 1 := e];
      AllExceededIdsUpdate(es[1..], i - 1, e);
    } else {
      assert es[i := e][1..] == es[1..];
    }
  }

  /** The global total counts exactly the recorded ids. */
  predicate DeadlineBooks(m: Manager) {
    m.exceededQuantity == |AllExceededIds(m.episodes)|
  }

  /** Registering a violation keeps the global total equal to the number of
      recorded ids. */
  lemma RegisterKeepsBooks(m: Manager, t: Task)
    requires ValidEpisode(m) && DeadlineBooks(m)
    ensures DeadlineBooks(RegisterTaskExceedingDeadline(m, t))
  {
    var m' := RegisterTaskExceedingDeadline(m, t);
    assert m'.episodes == m.episodes[m.currentEpisode := m'.episodes[m.currentEpisode]];
    AllExceededIdsUpdate(m.episodes, m.currentEpisode, m'.episodes[m.currentEpisode]);
  }

  // ---------------------------------------------------------------------
  // Rewards

  /** saveReward: append to the current episode's rewards; nothing else
      changes. */
  function SaveReward(m: Manager, reward: real): (m': Manager)
    requires ValidEpisode(m)
    ensures |m'.episodes| == |m.episodes|
    ensures m'.episodes[m.currentEpisode] == m.episodes[m.currentEpisode].(rewards := m.episodes[m.currentEpisode].rewards + [reward])
    ensures forall e :: 0 <= e < |m.episodes| && e != m.currentEpisode ==> m'.episodes[e] == m.episodes[e]
    ensures m' == m.(episodes := m'.episodes)
  {
    var e := m.episodes[m.currentEpisode];
    m.(episodes := m.episodes[m.currentEpisode := e.(rewards := e.rewards + [reward])])
  }

  /** getTaskRewardHistory(): every episode's rewards, episode by episode. */
  function AllRewards(es: seq<EpisodeStats>): seq<real> {
    if |es| == 0 then [] else es[0].rewards + AllRewards(es[1..])
  }

  lemma {:induction false} AllRewardsUpdate(es: seq<EpisodeStats>, i: nat, e: EpisodeStats)
    requires i < |es|
    ensures |AllRewards(es[i := e])| == |AllRewards(es)| - |es[i].rewards| + |e.rewards|
    ensures Sum(AllRewards(es[i := e])) == Sum(AllRewards(es)) - Sum(es[i].rewards) + Sum(e.rewards)
    decreases |es|
  {
    var es' := es[i := e];
    var tail, tail' := AllRewards(es[1..]), AllRewards(es'[1..]);
    assert AllRewards(es) == es[0].rewards + tail;
    assert AllRewards(es') == es'[0].rewards + tail';
    SumAppend(es[0].rewards, tail);
    SumAppend(es'[0].rewards, tail');
    if i > 0 {
      assert es'[0] == es[0];
      assert es'[1..] == es[1..][i - 1 := e];
      AllRewardsUpdate(es[1..], i - 1, e);
    } else {
      assert es'[0] == e && es'[1..] == es[1..];
    }
  }

  /** Saving a reward adds one value, and that value, to the all-episode
      history. */
  lemma SaveRewardGrowsHistory(m: Manager, reward: real)
    requires ValidEpisode(m)
    ensures |AllRewards(SaveReward(m, reward).episodes)| == |AllRewards(m.episodes)| + 1
    ensures Sum(AllRewards(SaveReward(m, reward).episodes)) == Sum(AllRewards(m.episodes)) + reward
  {
    var m' := SaveReward(m, reward);
    assert m'.episodes == m.episodes[m.currentEpisode := m'.episodes[m.currentEpisode]];
    AllRewardsUpdate(m.episodes, m.currentEpisode, m'.episodes[m.currentEpisode]);
    SumSnoc(m.episodes[m.currentEpisode].rewards, reward);
  }

  /** getRewardHistoryAvg(): 0.0 when there are no episodes at all (the
      guard tests the map, not the list); otherwise the mean, None standing
      for the NaN of an empty history. */
  function RewardHistoryAvg(m: Manager): (r: Option<real>)
    ensures |m.episodes| == 0 ==> r == Some(0.0)
    ensures |m.episodes| > 0 ==> (r.None? <==> |AllRewards(m.episodes)| == 0)
    ensures |m.episodes| > 0 && r.Some? ==> r.value * |AllRewards(m.episodes)| as real == Sum(AllRewards(m.episodes))
  {
    if |m.episodes| == 0 then Some(0.0) else Mean(AllRewards(m.episodes))
  }

  /** getRewardHistoryAvg(episode): a missing episode throws. */
  function RewardHistoryAvgIn(m: Manager, episode: int): (r: Result<Option<real>>)
    ensures r.Fail? <==> !(0 <= episode < |m.episodes|)
    ensures r.Ok? ==> (r.value.None? <==> |m.episodes[episode].rewards| == 0)
    ensures r.Ok? && r.value.Some? ==>
      r.value.value * |m.episodes[episode].rewards| as real == Sum(m.episodes[episode].rewards)
  {
    if 0 <= episode < |m.episodes| then Ok(Mean(m.episodes[episode].rewards)) else Fail(NullReference)
  }

  // ---------------------------------------------------------------------
  // Completion-time histories

  /** Each key at most once, as in a HashMap. */
  predicate KeysUnique(es: seq<Entry>) {
    forall i, j :: 0 <= i < j < |es| ==> es[i].key != es[j].key
  }

  /** Put introduces no key but its own. */
  lemma {:induction false} PutKeys(es: seq<Entry>, key: int, time: real)
    ensures forall i :: 0 <= i < |Put(es, key, time)| ==>
      Put(es, key, time)[i].key == key || exists k :: 0 <= k < |es| && es[k].key == Put(es, key, time)[i].key
    decreases |es|
  {
    if |es| > 0 && es[0].key != key {
      PutKeys(es[1..], key, time);
      var r := Put(es, key, time);
      assert r == [es[0]] + Put(es[1..], key, time);
      forall i | 0 < i < |r|
        ensures r[i].key == key || exists k :: 0 <= k < |es| && es[k].key == r[i].key
      {
        assert r[i] == Put(es[1..], key, time)[i - 1];
        if r[i].key != key {
          var k :| 0 <= k < |es[1..]| && es[1..][k].key == r[i].key;
          assert es[k + 1].key == r[i].key;
        }
      }
    }
  }

  /** Put keeps keys unique. */
  lemma {:induction false} PutUnique(es: seq<Entry>, key: int, time: real)
    requires KeysUnique(es)
    ensures KeysUnique(Put(es, key, time))
    decreases |es|
  {
    if |es| > 0 && es[0].key != key {
      assert KeysUnique(es[1..]) by {
        forall i, j | 0 <= i < j < |es[1..]|
          ensures es[1..][i].key != es[1..][j].key
        {
          assert es[1..][i] == es[i + 1] && es[1..][j] == es[j + 1];
        }
      }
      PutUnique(es[1..], key, time);
      PutKeys(es[1..], key, time);
      var r := Put(es, key, time);
      assert r == [es[0]] + Put(es[1..], key, time);
      forall i | 0 < i < |r|
        ensures r[i].key != es[0].key
      {
        assert r[i] == Put(es[1..], key, time)[i - 1];
      }
    }
  }

  /** Copy every entry of `es` into `acc` (HashMap.putAll). */
  function PutAll(acc: seq<Entry>, es: seq<Entry>): seq<Entry>
    decreases |es|
  {
    if |es| == 0 then acc else PutAll(Put(acc, es[0].key, es[0].time), es[1..])
  }

  /** After putAll, a key of the copied map has its value there, and any
      other key keeps its value. */
  lemma {:induction false} PutAllLookup(acc: seq<Entry>, es: seq<Entry>, key: int)
    requires KeysUnique(es)
    ensures Lookup(PutAll(acc, es), key) == if Lookup(es, key).Some? then Lookup(es, key) else Lookup(acc, key)
    decreases |es|
  {
    if |es| > 0 {
      assert KeysUnique(es[1..]) by {
        forall i, j | 0 <= i < j < |es[1..]|
          ensures es[1..][i].key != es[1..][j].key
        {
          assert es[1..][i] == es[i + 1] && es[1..][j] == es[j + 1];
        }
      }
      PutAllLookup(Put(acc, es[0].key, es[0].time), es[1..], key);
      if key == es[0].key {
        assert Lookup(es[1..], key).None? by {
          forall k | 0 <= k < |es[1..]|
            ensures es[1..][k].key != key
          {
            assert es[1..][k] == es[k + 1];
          }
        }
      }
    }
  }

  /** PutAll keeps keys unique. */
  lemma {:induction false} PutAllUnique(acc: seq<Entry>, es: seq<Entry>)
    requires KeysUnique(acc)
    ensures KeysUnique(PutAll(acc, es))
    decreases |es|
  {
    if |es| > 0 {
      PutUnique(acc, es[0].key, es[0].time);
      PutAllUnique(Put(acc, es[0].key, es[0].time), es[1..]);
    }
  }

  /** getTaskCompletionTimeHistory(): the episodes' maps merged in episode
      order, a later episode overriding an earlier one on a shared key. */
  function AllHistory(es: seq<EpisodeStats>): seq<Entry>
    decreases |es|
  {
    if |es| == 0 then [] else PutAll(AllHistory(es[..|es| - 1]), es[|es| - 1].completion)
  }

  predicate HistoriesUnique(es: seq<EpisodeStats>) {
    forall e :: 0 <= e < |es| ==> KeysUnique(es[e].completion)
  }

  /** The merged history holds each task's time from the latest episode
      that recorded it. */
  lemma AllHistoryLookup(es: seq<EpisodeStats>, key: int)
    requires |es| > 0 && HistoriesUnique(es)
    ensures Lookup(AllHistory(es), key) ==
      if Lookup(es[|es| - 1].completion, key).Some? then Lookup(es[|es| - 1].completion, key)
      else Lookup(AllHistory(es[..|es| - 1]), key)
  {
    PutAllLookup(AllHistory(es[..|es| - 1]), es[|es| - 1].completion, key);
  }

  lemma {:induction false} AllHistoryUnique(es: seq<EpisodeStats>)
    ensures KeysUnique(AllHistory(es))
    decreases |es|
  {
    if |es| > 0 {
      AllHistoryUnique(es[..|es| - 1]);
      PutAllUnique(AllHistory(es[..|es| - 1]), es[|es| - 1].completion);
    }
  }

  function Times(es: seq<Entry>): (r: seq<real>)
    ensures |r| == |es| && forall k :: 0 <= k < |es| ==> r[k] == es[k].time
  {
    if |es| == 0 then [] else [es[0].time] + Times(es[1..])
  }

  /** getTaskCompletionTimeAvg(): 0.0 for an empty merged history, else the
      mean of its values. */
  function TaskCompletionTimeAvg(m: Manager): (r: real)
    ensures |AllHistory(m.episodes)| == 0 ==> r == 0.0
    ensures |AllHistory(m.episodes)| > 0 ==>
      r * |AllHistory(m.episodes)| as real == Sum(Times(AllHistory(m.episodes)))
  {
    var h := AllHistory(m.episodes);
    if |h| == 0 then 0.0 else Mean(Times(h)).value
  }

  /** getTaskCompletionTimeAvg(episode): a missing episode throws. */
  function TaskCompletionTimeAvgIn(m: Manager, episode: int): (r: Result<real>)
    ensures r.Fail? <==> !(0 <= episode < |m.episodes|)
    ensures r.Ok? && |m.episodes[episode].completion| == 0 ==> r.value == 0.0
    ensures r.Ok? && |m.episodes[episode].completion| > 0 ==>
      r.value * |m.episodes[episode].completion| as real == Sum(Times(m.episodes[episode].completion))
  {
    if !(0 <= episode < |m.episodes|) then Fail(NullReference)
    else
      var h := m.episodes[episode].completion;
      if |h| == 0 then Ok(0.0) else Ok(Mean(Times(h)).value)
  }

  /** A sweep keeps every history a map: one value per cloudlet. */
  lemma {:induction false} SweepHistoryUnique(h: seq<Entry>, ts: seq<Task>, time: real)
    requires KeysUnique(h)
    ensures KeysUnique(SweepHistory(h, ts, time))
    decreases |ts|
  {
    if |ts| > 0 {
      var t := ts[0];
      var next := if Finished(t, time) then Put(h, t.cloudletId, t.finish - t.arrival + t.decisionTime) else h;
      assert SweepHistory(h, ts, time) == SweepHistory(next, ts[1..], time);
      assert KeysUnique(SweepHistory(next, ts[1..], time)) by {
        PutUnique(h, t.cloudletId, t.finish - t.arrival + t.decisionTime);
        SweepHistoryUnique(next, ts[1..], time);
      }
    }
  }

  lemma ReleaseKeepsHistoriesUnique(m: Manager, time: real)
    requires ValidEpisode(m) && forall t :: t in m.executing ==> t.jobId in m.jobs
    requires HistoriesUnique(m.episodes)
    ensures HistoriesUnique(ReleaseFinishedTasks(m, time).episodes)
  {
    SweepHistoryUnique(m.episodes[m.currentEpisode].completion, m.executing, time);
  }

  // ---------------------------------------------------------------------
  // Gateway samples and energy

  /** registerGatewayBusyTimes: one sample joins the current episode. */
  function RegisterGatewayBusyTimes(m: Manager, timestamp: real, computationTime: real, cpuPercent: real): (m': Manager)
    requires ValidEpisode(m)
    ensures |m'.episodes| == |m.episodes|
    ensures m'.episodes[m.currentEpisode] == m.episodes[m.currentEpisode].(
      samples := m.episodes[m.currentEpisode].samples + [Sample(timestamp, computationTime, cpuPercent)])
    ensures forall e :: 0 <= e < |m.episodes| && e != m.currentEpisode ==> m'.episodes[e] == m.episodes[e]
    ensures m' == m.(episodes := m'.episodes)
  {
    var e := m.episodes[m.currentEpisode];
    m.(episodes := m.episodes[m.currentEpisode := e.(samples := e.samples + [Sample(timestamp, computationTime, cpuPercent)])])
  }

  /** getGatewayBusyTimes(): every episode's samples, episode by episode. */
  function AllSamples(es: seq<EpisodeStats>): seq<Sample> {
    if |es| == 0 then [] else es[0].samples + AllSamples(es[1..])
  }

  function BusyTimes(ss: seq<Sample>): (r: seq<real>)
    ensures |r| == |ss| && forall k :: 0 <= k < |ss| ==> r[k] == ss[k].computationTime
  {
    if |ss| == 0 then [] else [ss[0].computationTime] + BusyTimes(ss[1..])
  }

  /** getAvgGatewayBusyTime(): 0.0 when there are no episodes (the guard
      tests the map), otherwise the mean computation time, None for NaN. */
  function AvgGatewayBusyTime(m: Manager): (r: Option<real>)
    ensures |m.episodes| == 0 ==> r == Some(0.0)
    ensures |m.episodes| > 0 ==> (r.None? <==> |AllSamples(m.episodes)| == 0)
    ensures |m.episodes| > 0 && r.Some? ==>
      r.value * |AllSamples(m.episodes)| as real == Sum(BusyTimes(AllSamples(m.episodes)))
  {
    if |m.episodes| == 0 then Some(0.0) else Mean(BusyTimes(AllSamples(m.episodes)))
  }

  /** getAvgGatewayBusyTime(episode): a missing episode throws. */
  function AvgGatewayBusyTimeIn(m: Manager, episode: int): (r: Result<Option<real>>)
    ensures r.Fail? <==> !(0 <= episode < |m.episodes|)
    ensures r.Ok? ==> (r.value.None? <==> |m.episodes[episode].samples| == 0)
    ensures r.Ok? && r.value.Some? ==>
      r.value.value * |m.episodes[episode].samples| as real == Sum(BusyTimes(m.episodes[episode].samples))
  {
    if 0 <= episode < |m.episodes| then Ok(Mean(BusyTimes(m.episodes[episode].samples))) else Fail(NullReference)
  }

  /** One sample's busy energy: its time at the power its CPU share draws. */
  function SampleEnergy(s: Sample, power: real -> real): real {
    s.computationTime * power(s.cpuPercent / 100.0)
  }

  /** Busy energy of some samples under a power model: Σ time · power(cpu/100). */
  function BusyEnergy(ss: seq<Sample>, power: real -> real): real {
    if |ss| == 0 then 0.0
    else SampleEnergy(ss[0], power) + BusyEnergy(ss[1..], power)
  }

  /** Each sample's excess over the static power, Σ time · (power(cpu/100) - static). */
  function ExcessEnergy(ss: seq<Sample>, power: real -> real, staticPower: real): real {
    if |ss| == 0 then 0.0
    else ss[0].computationTime * (power(ss[0].cpuPercent / 100.0) - staticPower) + ExcessEnergy(ss[1..], power, staticPower)
  }

  lemma {:induction false} BusyEnergySnoc(ss: seq<Sample>, s: Sample, power: real -> real)
    ensures BusyEnergy(ss + [s], power) == BusyEnergy(ss, power) + SampleEnergy(s, power)
    decreases |ss|
  {
    if |ss| > 0 {
      assert (ss + [s])[1..] == ss[1..] + [s];
      BusyEnergySnoc(ss[1..], s, power);
    } else {
      assert (ss + [s])[1..] == [];
    }
  }

  lemma {:induction false} BusyTimesSnoc(ss: seq<Sample>, s: Sample)
    ensures Sum(BusyTimes(ss + [s])) == Sum(BusyTimes(ss)) + s.computationTime
  {
    assert BusyTimes(ss + [s]) == BusyTimes(ss) + [s.computationTime];
    SumSnoc(BusyTimes(ss), s.computationTime);
  }

  /** getGatewayTotalEnergyConsumption, following the source's loop: the
      busy energy plus the static power over the time the gateway was not
      busy. The power model is a parameter; both energies are stored. */
  method GatewayTotalEnergy(m: Manager, finalClock: real, power: real -> real, staticPower: real)
    returns (total: real, m': Manager)
    ensures total == BusyEnergy(AllSamples(m.episodes), power)
                     + (finalClock - Sum(BusyTimes(AllSamples(m.episodes)))) * staticPower
    ensures m'.gatewayBusyEnergy == BusyEnergy(AllSamples(m.episodes), power)
    ensures m'.gatewayIdleEnergy == (finalClock - Sum(BusyTimes(AllSamples(m.episodes)))) * staticPower
    ensures total == m'.gatewayBusyEnergy + m'.gatewayIdleEnergy
    ensures m' == m.(gatewayBusyEnergy := m'.gatewayBusyEnergy, gatewayIdleEnergy := m'.gatewayIdleEnergy)
  {
    var busyEnergy, busyTime := BusyTotals(AllSamples(m.episodes), power);
    var idleEnergy := (finalClock - busyTime) * staticPower;
    m' := m.(gatewayBusyEnergy := busyEnergy, gatewayIdleEnergy := idleEnergy);
    total := busyEnergy + idleEnergy;
  }

  /** The source's loop over the samples: busy energy and busy time. */
  method BusyTotals(ss: seq<Sample>, power: real -> real) returns (energy: real, time: real)
    ensures energy == BusyEnergy(ss, power) && time == Sum(BusyTimes(ss))
  {
    energy, time := 0.0, 0.0;
    var i := 0;
    while i < |ss|
      invariant 0 <= i <= |ss|
      invariant energy == BusyEnergy(ss[..i], power)
      invariant time == Sum(BusyTimes(ss[..i]))
    {
      assert ss[..i + 1] == ss[..i] + [ss[i]];
      BusyEnergySnoc(ss[..i], ss[i], power);
      BusyTimesSnoc(ss[..i], ss[i]);
      time := time + ss[i].computationTime;
      energy := energy + SampleEnergy(ss[i], power);
      i := i + 1;
    }
    assert ss[..i] == ss;
  }

  /** The total equals the whole run at static power plus each sample's
      excess over static power. */
  lemma {:induction false} EnergySplit(ss: seq<Sample>, finalClock: real, power: real -> real, staticPower: real)
    ensures BusyEnergy(ss, power) + (finalClock - Sum(BusyTimes(ss))) * staticPower
            == finalClock * staticPower + ExcessEnergy(ss, power, staticPower)
    decreases |ss|
  {
    if |ss| > 0 {
      EnergySplit(ss[1..], finalClock, power, staticPower);
      assert BusyTimes(ss)[1..] == BusyTimes(ss[1..]);
    }
  }

  /** With power at least the static power, the gateway uses at least the
      static power over the whole run. */
  lemma {:induction false} ExcessNonNegative(ss: seq<Sample>, power: real -> real, staticPower: real)
    requires forall k :: 0 <= k < |ss| ==> ss[k].computationTime >= 0.0
    requires forall k :: 0 <= k < |ss| ==> power(ss[k].cpuPercent / 100.0) >= staticPower
    ensures ExcessEnergy(ss, power, staticPower) >= 0.0
    decreases |ss|
  {
    if |ss| > 0 {
      ExcessNonNegative(ss[1..], power, staticPower);
      var t := ss[0].computationTime;
      var d := power(ss[0].cpuPercent / 100.0) - staticPower;
      assert t * d >= 0.0;
    }
  }

  // ---------------------------------------------------------------------
  // Device busy time and computation time

  /** updateDeviceBusyTime: Java unboxes the host's entry, so an unknown
      host throws. */
  function UpdateDeviceBusyTime(m: Manager, hostId: int, time: real): (r: Result<Manager>)
    ensures r.Ok? <==> hostId in m.deviceBusy
    ensures r.Ok? ==> r.value == m.(deviceBusy := m.deviceBusy[hostId := m.deviceBusy[hostId] + time])
    ensures r.Fail? ==> r.fault == NullReference
  {
    if hostId in m.deviceBusy then Ok(m.(deviceBusy := m.deviceBusy[hostId := m.deviceBusy[hostId] + time]))
    else Fail(NullReference)
  }

  /** Two updates of one host add up; other hosts keep their time. */
  lemma BusyTimesAdd(m: Manager, hostId: int, a: real, b: real)
    requires hostId in m.deviceBusy
    ensures UpdateDeviceBusyTime(UpdateDeviceBusyTime(m, hostId, a).value, hostId, b)
            == UpdateDeviceBusyTime(m, hostId, a + b)
  {
    var d := m.deviceBusy;
    assert d[hostId := d[hostId] + a][hostId := d[hostId] + a + b] == d[hostId := d[hostId] + (a + b)];
  }

  /** parseComputationTime: rescale a measured time from the real gateway's
      speed to the simulated gateway's. */
  function ParseComputationTime(m: Manager, t: real): (r: real)
    requires m.simMips != 0.0
    ensures r * m.simMips == t * m.realMips
  {
    t * m.realMips / m.simMips
  }

  /** Equal speeds leave the time as measured; positive speeds keep the
      order of times. */
  lemma ComputationTimeScaling(m: Manager, t: real, u: real)
    requires m.simMips > 0.0 && m.realMips > 0.0
    ensures m.realMips == m.simMips ==> ParseComputationTime(m, t) == t
    ensures t <= u ==> ParseComputationTime(m, t) <= ParseComputationTime(m, u)
  {
    var a := ParseComputationTime(m, t);
    var b := ParseComputationTime(m, u);
    if t <= u {
      assert (b - a) * m.simMips == (u - t) * m.realMips;
    }
  }
}
