/** The worker pool: a bounded channel, worker goroutines that range over it, and Close, which
    closes the channel and waits for all workers. Every channel operation is one step. */
module WorkPools {
  import opened Model

  /** A worker waits for a task, handles one, or has left its loop. */
  datatype Worker<T> = Waiting | Running(task: T) | Gone

  /** accepted and finished record the pushed and the handled tasks in order. */
  datatype Pool<T> = Pool(size: nat, queue: seq<T>, workers: seq<Worker<T>>, closed: bool,
                          accepted: seq<T>, started: seq<T>, finished: seq<T>)

  datatype Action<T> =
    | Push(task: T)
    | HandOver(worker: nat, task: T)
    | Reject
    | Take(worker: nat)
    | End(worker: nat)
    | Close
    | Exit(worker: nat)

  predicate Is<T>(p: Pool<T>, worker: nat, w: Worker<T>)
    requires w.Waiting? || w.Gone?
  {
    worker < |p.workers| && match p.workers[worker]
      case Waiting => w.Waiting?
      case Running(_) => false
      case Gone => w.Gone?
  }

  predicate Enabled<T>(p: Pool<T>, a: Action<T>) {
    match a
    case Push(task) => !p.closed && |p.queue| < p.size
    // a send meets a receiver that is waiting on the empty channel
    case HandOver(worker, task) => !p.closed && p.queue == [] && Is(p, worker, Waiting)
    case Reject => !p.closed && |p.queue| >= p.size
    case Take(worker) => Is(p, worker, Waiting) && p.queue != []
    // the handler returned or its panic was recovered
    case End(worker) => worker < |p.workers| && p.workers[worker].Running?
    case Close => !p.closed
    case Exit(worker) => Is(p, worker, Waiting) && p.closed && p.queue == []
  }

  function Do<T>(p: Pool<T>, a: Action<T>): Pool<T>
    requires Enabled(p, a)
  {
    match a
    case Push(task) => p.(queue := p.queue + [task], accepted := p.accepted + [task])
    case HandOver(worker, task) =>
      p.(workers := p.workers[worker := Running(task)], accepted := p.accepted + [task], started := p.started + [task])
    case Reject => p
    case Take(worker) =>
      p.(workers := p.workers[worker := Running(p.queue[0])], queue := p.queue[1..], started := p.started + [p.queue[0]])
    case End(worker) =>
      p.(workers := p.workers[worker := Waiting], finished := p.finished + [p.workers[worker].task])
    case Close => p.(closed := true)
    case Exit(worker) => p.(workers := p.workers[worker := Gone])
  }

  ghost predicate Init<T>(p: Pool<T>) {
    && p.queue == [] && !p.closed && p.accepted == [] && p.started == [] && p.finished == []
    && forall w | 0 <= w < |p.workers| :: p.workers[w].Waiting?
  }

  ghost predicate Run<T(!new)>(pools: seq<Pool<T>>, actions: seq<Action<T>>) {
    && |pools| == |actions| + 1
    && forall i | 0 <= i < |actions| :: Enabled(pools[i], actions[i]) && pools[i + 1] == Do(pools[i], actions[i])
  }

  /** Copies of task in the workers' hands. */
  ghost function InHand<T>(workers: seq<Worker<T>>, task: T): nat {
    if |workers| == 0 then 0
    else InHand(workers[..|workers| - 1], task) + Hand(workers[|workers| - 1], task)
  }

  ghost function Hand<T>(w: Worker<T>, task: T): nat {
    if w == Running(task) then 1 else 0
  }

  lemma {:induction false} HandChanges<T>(workers: seq<Worker<T>>, i: nat, w: Worker<T>, task: T)
    requires i < |workers|
    ensures InHand(workers[i := w], task) + Hand(workers[i], task) == InHand(workers, task) + Hand(w, task)
    decreases |workers|
  {
    var n := |workers| - 1;
    if i < n {
      HandChanges(workers[..n], i, w, task);
      assert workers[i := w][..n] == workers[..n][i := w];
    } else {
      assert workers[i := w][..n] == workers[..n];
    }
  }

  predicate Waits<T>(p: Pool<T>) {
    forall w | 0 <= w < |p.workers| :: p.workers[w].Gone? ==> p.closed && p.queue == []
  }

  /** Each started task, counted with its copies, is in one worker's hands or finished. */
  ghost predicate Accounted<T(!new)>(started: seq<T>, workers: seq<Worker<T>>, finished: seq<T>) {
    forall task :: multiset(started)[task] == InHand(workers, task) + multiset(finished)[task]
  }

  /** Tasks leave the queue in push order; started tasks are accounted for; the queue is
      bounded; workers leave only a closed, empty pool. */
  ghost predicate Inv<T(!new)>(p: Pool<T>) {
    && p.accepted == p.started + p.queue
    && Accounted(p.started, p.workers, p.finished)
    && |p.queue| <= p.size
    && Waits(p)
  }

  lemma {:induction false} NoneInHand<T>(workers: seq<Worker<T>>, task: T)
    requires forall w | 0 <= w < |workers| :: !workers[w].Running?
    ensures InHand(workers, task) == 0
  {
    if |workers| > 0 { NoneInHand(workers[..|workers| - 1], task); }
  }

  lemma InitInv<T(!new)>(p: Pool<T>)
    requires Init(p)
    ensures Inv(p)
  {
    forall task ensures InHand(p.workers, task) == 0 { NoneInHand(p.workers, task); }
  }

  lemma Starts<T(!new)>(workers: seq<Worker<T>>, i: nat, task: T, started: seq<T>, finished: seq<T>)
    requires i < |workers| && workers[i].Waiting?
    requires Accounted(started, workers, finished)
    ensures Accounted(started + [task], workers[i := Running(task)], finished)
  {
    hide InHand;
    forall t
      ensures multiset(started + [task])[t] == InHand(workers[i := Running(task)], t) + multiset(finished)[t]
    {
      HandChanges(workers, i, Running(task), t);
    }
  }

  lemma Ends<T(!new)>(workers: seq<Worker<T>>, i: nat, task: T, started: seq<T>, finished: seq<T>)
    requires i < |workers| && workers[i] == Running(task)
    requires Accounted(started, workers, finished)
    ensures Accounted(started, workers[i := Waiting], finished + [task])
  {
    hide InHand;
    forall t
      ensures multiset(started)[t] == InHand(workers[i := Waiting], t) + multiset(finished + [task])[t]
    {
      HandChanges(workers, i, Waiting, t);
    }
  }

  lemma Leaves<T(!new)>(workers: seq<Worker<T>>, i: nat, started: seq<T>, finished: seq<T>)
    requires i < |workers| && workers[i].Waiting?
    requires Accounted(started, workers, finished)
    ensures Accounted(started, workers[i := Gone], finished)
  {
    hide InHand;
    forall t ensures InHand(workers[i := Gone], t) == InHand(workers, t) {
      HandChanges(workers, i, Gone, t);
    }
  }

  lemma StepKeeps<T(!new)>(p: Pool<T>, a: Action<T>)
    requires Inv(p) && Enabled(p, a)
    ensures Inv(Do(p, a))
  {
    hide Accounted;
    match a
    case Push(task) =>
    case HandOver(worker, task) => Starts(p.workers, worker, task, p.started, p.finished);
    case Take(worker) =>
      Starts(p.workers, worker, p.queue[0], p.started, p.finished);
      assert p.queue == [p.queue[0]] + p.queue[1..];
    case End(worker) => Ends(p.workers, worker, p.workers[worker].task, p.started, p.finished);
    case Exit(worker) => Leaves(p.workers, worker, p.started, p.finished);
    case _ =>
  }

  lemma {:induction false} RunKeeps<T(!new)>(pools: seq<Pool<T>>, actions: seq<Action<T>>, n: nat)
    requires Run(pools, actions) && Inv(pools[0]) && n <= |actions|
    ensures Inv(pools[n])
    ensures |pools[n].workers| == |pools[0].workers|
    decreases n
  {
    hide Inv;
    if n > 0 {
      RunKeeps(pools, actions, n - 1);
      StepKeeps(pools[n - 1], actions[n - 1]);
    }
  }

  /** In every reachable state accepted tasks have left the queue in push order, and each of
      them, counted with its copies, is queued, in one worker's hands, or finished. */
  lemma Conserved<T(!new)>(pools: seq<Pool<T>>, actions: seq<Action<T>>, n: nat)
    requires Run(pools, actions) && Init(pools[0]) && n <= |actions|
    ensures var p := pools[n];
      && p.accepted == p.started + p.queue
      && |p.queue| <= p.size
      && (forall task :: multiset(p.accepted)[task]
            == multiset(p.queue)[task] + InHand(p.workers, task) + multiset(p.finished)[task])
  {
    hide InHand, Init;
    InitInv(pools[0]);
    RunKeeps(pools, actions, n);
    var p := pools[n];
    assert multiset(p.started + p.queue) == multiset(p.started) + multiset(p.queue);
  }

  /** Close returns when every worker has left. */
  predicate CloseReturns<T>(p: Pool<T>) {
    p.closed && forall w | 0 <= w < |p.workers| :: p.workers[w].Gone?
  }

  lemma {:induction false} NothingStarts<T(!new)>(pools: seq<Pool<T>>, actions: seq<Action<T>>, n: nat)
    requires Run(pools, actions) && Init(pools[0]) && n <= |actions| && pools[0].workers == []
    ensures pools[n].finished == [] && pools[n].workers == []
    decreases n
  {
    if n > 0 { NothingStarts(pools, actions, n - 1); }
  }

  lemma NothingLeft<T(!new)>(p: Pool<T>)
    requires Inv(p) && CloseReturns(p) && p.workers != []
    ensures multiset(p.finished) == multiset(p.accepted)
  {
    assert p.workers[0].Gone?;
    forall task ensures multiset(p.finished)[task] == multiset(p.accepted)[task] {
      NoneInHand(p.workers, task);
    }
  }

  /** When Close returns, every accepted task has been handled, if and only if the pool has a
      worker or nothing was ever accepted. */
  lemma CloseCompletes<T(!new)>(pools: seq<Pool<T>>, actions: seq<Action<T>>)
    requires Run(pools, actions) && Init(pools[0])
    requires CloseReturns(pools[|actions|])
    ensures var p := pools[|actions|];
      multiset(p.finished) == multiset(p.accepted) <==> |pools[0].workers| >= 1 || p.accepted == []
  {
    var n := |actions|;
    if pools[0].workers == [] {
      NothingStarts(pools, actions, n);
      assert |multiset(pools[n].accepted)| == |pools[n].accepted|;
    } else {
      InitInv(pools[0]);
      RunKeeps(pools, actions, n);
      NothingLeft(pools[n]);
    }
  }

  // ----- Close terminates ------------------------------------------------------------------

  function Weight<T>(w: Worker<T>): nat {
    match w
    case Waiting => 1
    case Running(_) => 2
    case Gone => 0
  }

  function Weights<T>(workers: seq<Worker<T>>): nat {
    if |workers| == 0 then 0 else Weights(workers[..|workers| - 1]) + Weight(workers[|workers| - 1])
  }

  /** Channel operations still to come once nothing more can be pushed. */
  function StepsLeft<T>(p: Pool<T>): nat {
    2 * |p.queue| + Weights(p.workers)
  }

  lemma {:induction false} WeightChanges<T>(workers: seq<Worker<T>>, i: nat, w: Worker<T>)
    requires i < |workers|
    ensures Weights(workers[i := w]) + Weight(workers[i]) == Weights(workers) + Weight(w)
    decreases |workers|
  {
    var n := |workers| - 1;
    if i < n {
      WeightChanges(workers[..n], i, w);
      assert workers[i := w][..n] == workers[..n][i := w];
    } else {
      assert workers[i := w][..n] == workers[..n];
    }
  }

  lemma {:induction false} NoWeight<T>(workers: seq<Worker<T>>)
    ensures Weights(workers) == 0 <==> forall w | 0 <= w < |workers| :: workers[w].Gone?
  {
    if |workers| > 0 {
      var n := |workers| - 1;
      NoWeight(workers[..n]);
      assert forall w | 0 <= w < n :: workers[..n][w] == workers[w];
    }
  }

  lemma ClosedStep<T>(p: Pool<T>, a: Action<T>)
    requires p.closed && Enabled(p, a)
    ensures Do(p, a).closed && StepsLeft(Do(p, a)) == StepsLeft(p) - 1
  {
    match a
    case Take(worker) => WeightChanges(p.workers, worker, Running(p.queue[0]));
    case End(worker) => WeightChanges(p.workers, worker, Waiting);
    case Exit(worker) => WeightChanges(p.workers, worker, Gone);
    case _ =>
  }

  /** A closed pool whose handlers end always has a step to take until Close returns. */
  lemma ClosedProgress<T(!new)>(p: Pool<T>)
    requires p.closed && Inv(p)
    ensures CloseReturns(p) <==> forall a: Action<T> :: !Enabled(p, a)
  {
    if !CloseReturns(p) {
      var w :| 0 <= w < |p.workers| && !p.workers[w].Gone?;
      if p.workers[w].Running? {
        assert Enabled(p, End(w));
      } else if p.queue != [] {
        assert Enabled(p, Take(w));
      } else {
        assert Enabled(p, Exit(w));
      }
    }
  }

  lemma {:induction false} StepsTaken<T(!new)>(pools: seq<Pool<T>>, actions: seq<Action<T>>, n: nat)
    requires Run(pools, actions) && pools[0].closed && n <= |actions|
    ensures pools[n].closed && StepsLeft(pools[n]) + n == StepsLeft(pools[0])
    decreases n
  {
    hide StepsLeft;
    if n > 0 {
      StepsTaken(pools, actions, n - 1);
      ClosedStep(pools[n - 1], actions[n - 1]);
    }
  }

  /** Once the channel is closed Close returns after exactly StepsLeft channel operations,
      whatever the schedule of the workers, as long as the pool has a worker. */
  lemma CloseTerminates<T(!new)>(pools: seq<Pool<T>>, actions: seq<Action<T>>)
    requires Run(pools, actions) && pools[0].closed && Inv(pools[0]) && pools[0].workers != []
    ensures |actions| <= StepsLeft(pools[0])
    ensures CloseReturns(pools[|actions|]) <==> |actions| == StepsLeft(pools[0])
  {
    var n := |actions|;
    StepsTaken(pools, actions, n);
    RunKeeps(pools, actions, n);
    NoWeight(pools[n].workers);
    if CloseReturns(pools[n]) { assert pools[n].workers[0].Gone?; }
  }

  // ----- The code --------------------------------------------------------------------------

  class WorkPool<T(!new)> {
    var pool: Pool<T>

    constructor (workersCount: nat, queueSize: nat)
      ensures Init(pool) && |pool.workers| == workersCount && pool.size == queueSize
    {
      pool := Pool(queueSize, [], seq(workersCount, _ => Waiting), false, [], [], []);
    }

    /** A send that does not block: to a worker already parked on the empty channel, else into
        the buffer, else not at all. Go panics when the channel is closed. */
    method TryPush(task: T, parked: Option<nat>) returns (ok: bool)
      requires !pool.closed
      requires parked.Some? ==> pool.queue == [] && Is(pool, parked.value, Waiting)
      modifies this
      ensures pool.accepted == if ok then old(pool.accepted) + [task] else old(pool.accepted)
      ensures ok <==> parked.Some? || |old(pool.queue)| < pool.size
      ensures parked == None ==>
        pool.queue == (if ok then old(pool.queue) + [task] else old(pool.queue)) && pool.workers == old(pool.workers)
      ensures parked.Some? ==>
        pool.queue == [] && pool.workers == old(pool.workers)[parked.value := Running(task)]
      ensures pool.finished == old(pool.finished) && !pool.closed && pool.size == old(pool.size)
      ensures exists a :: Enabled(old(pool), a) && pool == Do(old(pool), a)
      ensures old(Inv(pool)) ==> Inv(pool)
    {
      var a: Action :=
        if parked.Some? then HandOver(parked.value, task)
        else if |pool.queue| < pool.size then Push(task)
        else Reject;
      assert Enabled(pool, a);
      if Inv(pool) { StepKeeps(pool, a); }
      pool := Do(pool, a);
      return !a.Reject?;
    }

    /** Close: close the channel, then wait while the workers drain it in any order. */
    method Close()
      requires !pool.closed && Inv(pool)
      modifies this
      ensures CloseReturns(pool) && Inv(pool)
      ensures pool.accepted == old(pool.accepted)
      ensures old(pool.workers) != [] ==> multiset(pool.finished) == multiset(pool.accepted)
    {
      StepKeeps(pool, Action.Close);
      pool := Do(pool, Action.Close);
      while !CloseReturns(pool)
        invariant pool.closed && Inv(pool)
        invariant pool.accepted == old(pool.accepted) && |pool.workers| == |old(pool.workers)|
        decreases StepsLeft(pool)
      {
        var w :| 0 <= w < |pool.workers| && !pool.workers[w].Gone?;
        var a: Action := if pool.workers[w].Running? then End(w) else if pool.queue != [] then Take(w) else Exit(w);
        ClosedStep(pool, a);
        StepKeeps(pool, a);
        pool := Do(pool, a);
      }
      if pool.workers != [] { NothingLeft(pool); }
    }
  }
}
