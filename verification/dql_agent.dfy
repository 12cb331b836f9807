/** The deep Q-learning agent's bookkeeping: the bounded replay buffer and
    what the agent does with it around training.

    The Q-networks, the sampling of a batch and the fitting are not part of
    this model; `Learn` reports whether a training pass would run.
 */
module DqlAgent {
  import opened Wrappers

  /** ReplayBuffer: a maximum size and the kept experiences, oldest first. */
  datatype Buffer<T> = Buffer(size: int, items: seq<T>)

  function NewBuffer<T>(size: int): (b: Buffer<T>)
    ensures b.size == size && b.items == []
  {
    Buffer(size, [])
  }

  /** add: append; if that makes the buffer too long, drop the oldest. */
  function Add<T>(b: Buffer<T>, x: T): (r: Buffer<T>)
    ensures r.size == b.size
    ensures |b.items| + 1 <= b.size ==> r.items == b.items + [x]
    ensures |b.items| + 1 > b.size && |b.items| > 0 ==> r.items == b.items[1..] + [x]
    ensures |b.items| == 0 && b.size < 1 ==> r.items == []
  {
    var grown := b.items + [x];
    if |grown| > b.size then Buffer(b.size, grown[1..]) else Buffer(b.size, grown)
  }

  function Length<T>(b: Buffer<T>): (n: nat)
    ensures n == |b.items|
  {
    |b.items|
  }

  function All<T>(b: Buffer<T>): (s: seq<T>)
    ensures s == b.items
  {
    b.items
  }

  /** clear: nothing kept, same maximum size. */
  function Clear<T>(b: Buffer<T>): (r: Buffer<T>)
    ensures Length(r) == 0 && r.size == b.size
  {
    Buffer(b.size, [])
  }

  /** Adding each of `xs` in turn. */
  function AddAll<T>(b: Buffer<T>, xs: seq<T>): Buffer<T>
    decreases |xs|
  {
    if |xs| == 0 then b else AddAll(Add(b, xs[0]), xs[1..])
  }

  function Min(a: int, b: int): int {
    if a <= b then a else b
  }

  /** A buffer of positive size never holds more than its size. */
  lemma AddBounded<T>(b: Buffer<T>, x: T)
    requires b.size >= 1 && Length(b) <= b.size
    ensures Length(Add(b, x)) <= b.size
  {
  }

  /** A buffer that keeps the last items of `xs` keeps the last items of
      `xs + [x]` after adding x. */
  lemma AddKeepsSuffix<T>(xs: seq<T>, x: T, size: nat)
    requires size >= 1
    ensures var kept := xs[|xs| - Min(|xs|, size)..];
      Add(Buffer(size, kept), x).items == (xs + [x])[|xs| + 1 - Min(|xs| + 1, size)..]
  {
    var kept := xs[|xs| - Min(|xs|, size)..];
    var ys := xs + [x];
    if |kept| + 1 > size {
      assert |xs| >= size;
      assert kept[1..] + [x] == ys[|ys| - size..];
    } else {
      assert kept + [x] == ys[|ys| - Min(|ys|, size)..];
    }
  }

  /** From an empty buffer of positive size, the contents after any adds
      are the last min(k, size) items added, in the order they were added. */
  lemma {:induction false} KeepsLatest<T>(size: nat, xs: seq<T>)
    requires size >= 1
    ensures AddAll(NewBuffer(size), xs).items == xs[|xs| - Min(|xs|, size)..]
  {
    KeepsLatestFrom(size, [], xs);
  }

  lemma {:induction false} KeepsLatestFrom<T>(size: nat, done: seq<T>, xs: seq<T>)
    requires size >= 1
    ensures AddAll(Buffer(size, done[|done| - Min(|done|, size)..]), xs).items
            == (done + xs)[|done + xs| - Min(|done + xs|, size)..]
    decreases |xs|
  {
    if |xs| == 0 {
      assert done + xs == done;
    } else {
      AddKeepsSuffix(done, xs[0], size);
      KeepsLatestFrom(size, done + [xs[0]], xs[1..]);
      assert done + [xs[0]] + xs[1..] == done + xs;
    }
  }

  // ---------------------------------------------------------------------
  // The agent

  /** One experience: the observation, the action, its reward (None when
      none was saved) and the next observation. */
  datatype Transition = Transition(state: seq<real>, action: int, reward: Option<real>, next: seq<real>)

  /** The agent's bookkeeping: its dimensions, batch size, exploration rate
      and replay buffer. */
  datatype Agent = Agent(stateDim: int, nActions: int, batchSize: int, epsilon: real, buffer: Buffer<Transition>)

  const BUFFER_SIZE: int := 256

  /** Agent(...): an empty buffer of the default size. */
  function NewAgent(stateDim: int, nActions: int, batchSize: int, epsilon: real): (a: Agent)
    ensures a.stateDim == stateDim && a.nActions == nActions && a.batchSize == batchSize
    ensures a.epsilon == epsilon && a.buffer.size == 256 && Length(a.buffer) == 0
  {
    Agent(stateDim, nActions, batchSize, epsilon, NewBuffer(BUFFER_SIZE))
  }

  /** reset_environment: an empty buffer and the given exploration rate. */
  function ResetEnvironment(a: Agent, epsilon: real): (r: Agent)
    ensures Length(r.buffer) == 0 && r.buffer.size == a.buffer.size && r.epsilon == epsilon
    ensures r.stateDim == a.stateDim && r.nActions == a.nActions && r.batchSize == a.batchSize
  {
    a.(buffer := Clear(a.buffer), epsilon := epsilon)
  }

  /** store_transition: the buffer's add. */
  function StoreTransition(a: Agent, t: Transition): (r: Agent)
    ensures r.stateDim == a.stateDim && r.nActions == a.nActions && r.batchSize == a.batchSize
    ensures r.epsilon == a.epsilon && r.buffer.size == a.buffer.size
    ensures a.buffer.size >= 1 ==>
      && Length(r.buffer) > 0 && All(r.buffer)[Length(r.buffer) - 1] == t
      && Length(r.buffer) <= Length(a.buffer) + 1
      && All(r.buffer)[..Length(r.buffer) - 1] == All(a.buffer)[Length(a.buffer) + 1 - Length(r.buffer)..]
  {
    a.(buffer := Add(a.buffer, t))
  }

  /** learn's guard: with fewer experiences than a batch the agent returns
      unchanged; otherwise a training pass runs (its effect on the
      networks is not modelled). */
  function Learn(a: Agent): (r: (Agent, bool))
    ensures r.1 <==> Length(a.buffer) >= a.batchSize
    ensures r.0 == a
  {
    (a, Length(a.buffer) >= a.batchSize)
  }
}
