/** ParallelProbe: a pool of workers between two buffered channels, each with room
    for the whole input. */
module ProbePool {
  import opened Collections

  /** The services to probe, what the probe made for each position of the input will give,
      and the size of the pool. */
  datatype Config<!D> = Config(services: seq<string>, outcomes: nat -> D, workerCount: int) {
    /** No more workers than services, and none if the count is not positive. */
    function Workers(): nat {
      if workerCount <= 0 then 0 else if |services| < workerCount then |services| else workerCount
    }
  }

  /** The worker count of a pool as NewServicePool builds it: ten if none is asked for. */
  function NewServicePool(workers: int): int {
    if workers <= 0 then 10 else workers
  }

  datatype Result<D> = Result(service: string, outcome: D)

  datatype Worker = Unborn | Idle | Probing(i: nat) | Ready(i: nat) | Exited

  datatype Main =
    | Entered | ReturnedNil
    | Spawning(next: nat) | Feeding(next: nat) | Launching | Collecting | Returned

  datatype Waiter = NotStarted | Waiting | Closing | Finished

  /** Services and results are named by their position in the input. */
  datatype State = State(
    main: Main, waiter: Waiter, workers: seq<Worker>, waitGroup: int,
    services: seq<nat>, servicesClosed: bool,
    results: seq<nat>, resultsClosed: bool,
    collected: seq<nat>)

  datatype Step =
    | ReturnNil | Begin
    | Spawn | Feed | CloseServices | StartWaiter
    | Take(w: nat) | Probe(w: nat) | Put(w: nat) | Exit(w: nat)
    | WaitReturns | CloseResults
    | Collect | Return

  ghost predicate Init<D>(cfg: Config<D>, s: State) {
    && s.main == Entered && s.waiter == NotStarted
    && s.workers == seq(cfg.Workers(), k => Unborn) && s.waitGroup == 0
    && s.services == [] && !s.servicesClosed && s.results == [] && !s.resultsClosed && s.collected == []
  }

  ghost predicate Next<D>(cfg: Config<D>, s: State, step: Step, s': State) {
    var room := |cfg.services|;
    match step
    case ReturnNil =>
      && s.main.Entered? && cfg.services == []
      && s' == s.(main := ReturnedNil)
    case Begin =>
      && s.main.Entered? && cfg.services != []
      && s' == s.(main := Spawning(0))
    case Spawn =>
      && s.main.Spawning? && s.main.next < |s.workers|
      && s' == s.(main := Spawning(s.main.next + 1), waitGroup := s.waitGroup + 1,
         workers := s.workers[s.main.next := Idle])
    case Feed =>
      && (s.main.Feeding? || (s.main.Spawning? && s.main.next == |s.workers|))
      && Fed(cfg, s) < |cfg.services| && !s.servicesClosed && |s.services| < room
      && s' == s.(main := Feeding(Fed(cfg, s) + 1), services := s.services + [Fed(cfg, s)])
    case CloseServices =>
      && s.main.Feeding? && s.main.next == |cfg.services|
      && s' == s.(main := Launching, servicesClosed := true)
    case StartWaiter =>
      && s.main.Launching?
      && s' == s.(main := Collecting, waiter := Waiting)
    case Take(w) =>
      && w < |s.workers| && s.workers[w].Idle? && s.services != []
      && s' == s.(workers := s.workers[w := Probing(s.services[0])], services := s.services[1..])
    case Probe(w) =>
      && w < |s.workers| && s.workers[w].Probing?
      && s' == s.(workers := s.workers[w := Ready(s.workers[w].i)])
    case Put(w) =>
      && w < |s.workers| && s.workers[w].Ready? && !s.resultsClosed && |s.results| < room
      && s' == s.(workers := s.workers[w := Idle], results := s.results + [s.workers[w].i])
    case Exit(w) =>
      && w < |s.workers| && s.workers[w].Idle? && s.services == [] && s.servicesClosed
      && s' == s.(workers := s.workers[w := Exited], waitGroup := s.waitGroup - 1)
    case WaitReturns =>
      && s.waiter.Waiting? && s.waitGroup == 0
      && s' == s.(waiter := Closing)
    case CloseResults =>
      && s.waiter.Closing?
      && s' == s.(waiter := Finished, resultsClosed := true)
    case Collect =>
      && s.main.Collecting? && s.results != []
      && s' == s.(collected := s.collected + [s.results[0]], results := s.results[1..])
    case Return =>
      && s.main.Collecting? && s.results == [] && s.resultsClosed
      && s' == s.(main := Returned)
  }

  ghost predicate Follows<D>(cfg: Config<D>, s: State, s': State) {
    exists step :: Next(cfg, s, step, s')
  }

  ghost predicate IsRun<D>(cfg: Config<D>, run: seq<State>) {
    && run != [] && Init(cfg, run[0])
    && forall k | 0 <= k < |run| - 1 :: Follows(cfg, run[k], run[k + 1])
  }

  /** How many services have been sent to the workers. */
  ghost function Fed<D>(cfg: Config<D>, s: State): nat {
    match s.main
    case Entered => 0
    case ReturnedNil => 0
    case Spawning(_) => 0
    case Feeding(next) => next
    case _ => |cfg.services|
  }

  predicate Done(main: Main) {
    main.Returned? || main.ReturnedNil?
  }

  predicate NotLaunched(main: Main) {
    main.Entered? || main.ReturnedNil? || main.Spawning?
  }

  // ----- counting workers -----

  predicate Alive(w: Worker) {
    !w.Unborn? && !w.Exited?
  }

  function Weight(w: Worker): nat {
    match w
    case Unborn => 2
    case Idle => 1
    case Probing(_) => 4
    case Ready(_) => 3
    case Exited => 0
  }

  function Living(w: Worker): nat {
    One(Alive(w))
  }

  /** How often position `i` stands in a queue. */
  function Copies(q: seq<nat>, i: nat): nat {
    if q == [] then 0 else Copies(q[..|q| - 1], i) + One(q[|q| - 1] == i)
  }

  predicate Busy(w: Worker) {
    w.Probing? || w.Ready?
  }

  function Laden(w: Worker): nat {
    One(Busy(w))
  }

  predicate Holds(w: Worker, i: nat) {
    Busy(w) && w.i == i
  }

  /** Whether a worker has position `i` in hand, as a number. */
  function Holding(i: nat): Worker -> nat {
    w => One(Holds(w, i))
  }

  lemma CopiesAfterAppend(q: seq<nat>, x: nat, i: nat)
    ensures Copies(q + [x], i) == Copies(q, i) + One(x == i)
  {
    assert (q + [x])[..|q|] == q;
  }

  lemma {:induction false} CopiesWithout(q: seq<nat>, k: nat, i: nat)
    requires k < |q|
    ensures Copies(q[..k] + q[k + 1..], i) == Copies(q, i) - One(q[k] == i)
  {
    var front, last := q[..|q| - 1], |q| - 1;
    if k < last {
      CopiesWithout(front, k, i);
      assert q[..k] + q[k + 1..] == (front[..k] + front[k + 1..]) + [q[last]];
      CopiesAfterAppend(front[..k] + front[k + 1..], q[last], i);
    } else {
      assert q[..k] + q[k + 1..] == front;
    }
  }

  lemma CopiesAfterTake(q: seq<nat>, i: nat)
    requires q != []
    ensures Copies(q[1..], i) == Copies(q, i) - One(q[0] == i)
  {
    CopiesWithout(q, 0, i);
    assert q[..0] + q[1..] == q[1..];
  }

  lemma {:induction false} CopiesFound(q: seq<nat>, i: nat)
    ensures Copies(q, i) > 0 <==> i in q
  {
    if q != [] {
      CopiesFound(q[..|q| - 1], i);
      assert q == q[..|q| - 1] + [q[|q| - 1]];
    }
  }

  lemma {:induction false} WeightOfUnborn(workers: seq<Worker>)
    requires forall k | 0 <= k < |workers| :: workers[k].Unborn?
    ensures Sum(workers, Weight) == 2 * |workers|
  {
    if workers != [] {
      WeightOfUnborn(workers[..|workers| - 1]);
    }
  }

  /** The worker a step moves, if it moves one. */
  function Mover(s: State, step: Step): Option<nat> {
    match step
    case Spawn => if s.main.Spawning? then Some(s.main.next) else None
    case Take(w) => Some(w)
    case Probe(w) => Some(w)
    case Put(w) => Some(w)
    case Exit(w) => Some(w)
    case _ => None
  }

  /** What a step does to the workers, taken together. */
  lemma WorkersStep<D>(cfg: Config<D>, s: State, step: Step, s': State, f: Worker -> nat)
    requires Next(cfg, s, step, s')
    ensures match Mover(s, step)
            case None => s'.workers == s.workers
            case Some(w) =>
              && w < |s.workers| && s'.workers == s.workers[w := s'.workers[w]]
              && Sum(s'.workers, f) == Sum(s.workers, f) - f(s.workers[w]) + f(s'.workers[w])
  {
    var mover := Mover(s, step);
    if mover.Some? {
      SumAfterUpdate(s.workers, f, mover.value, s'.workers[mover.value]);
    }
  }

  // ----- what every state keeps -----

  ghost predicate ShapeInv<D>(cfg: Config<D>, s: State) {
    && |s.workers| == cfg.Workers()
    && (s.main.Spawning? ==> s.main.next <= |s.workers|)
    && (s.main.Feeding? ==> s.main.next <= |cfg.services|)
    && (forall k | 0 <= k < |s.workers| ::
          s.workers[k].Unborn? <==> NotLaunched(s.main) && !(s.main.Spawning? && k < s.main.next))
    && (NotLaunched(s.main) ==> s.collected == [])
    && (s.main.ReturnedNil? ==> cfg.services == [])
    && (s.main.Entered? || s.main.ReturnedNil? || cfg.services != [])
    && (s.waiter.NotStarted? <==> NotLaunched(s.main) || s.main.Feeding? || s.main.Launching?)
    && (s.servicesClosed <==> s.main.Launching? || s.main.Collecting? || s.main.Returned?)
    && (s.resultsClosed <==> s.waiter.Finished?)
    && (s.main.Returned? ==> s.resultsClosed && s.results == [])
    && (forall k | 0 <= k < |s.workers| && s.workers[k].Exited? :: s.servicesClosed && s.services == [])
    && (s.waiter.Closing? || s.waiter.Finished? ==> forall k | 0 <= k < |s.workers| :: s.workers[k].Exited?)
  }

  ghost predicate CountInv(s: State) {
    s.waitGroup == Sum(s.workers, Living)
  }

  /** How often position `i` is queued, in a worker's hands, among the queued results, or collected. */
  function Places(s: State, i: nat): nat {
    Copies(s.services, i) + Sum(s.workers, Holding(i)) + Copies(s.results, i) + Copies(s.collected, i)
  }

  /** Every service sent is in exactly one place, and no other is anywhere. */
  ghost predicate Conserved<D>(cfg: Config<D>, s: State) {
    && |s.services| + Sum(s.workers, Laden) + |s.results| + |s.collected| == Fed(cfg, s)
    && forall i: nat :: Places(s, i) == One(i < Fed(cfg, s))
  }

  ghost predicate Inv<D>(cfg: Config<D>, s: State) {
    ShapeInv(cfg, s) && CountInv(s) && Conserved(cfg, s)
  }

  lemma ShapeStep<D>(cfg: Config<D>, s: State, step: Step, s': State)
    requires ShapeInv(cfg, s) && CountInv(s) && Next(cfg, s, step, s')
    ensures ShapeInv(cfg, s')
  {
    if Mover(s, step).Some? {
      WorkerKeepsShape(cfg, s, step, s');
    } else if step.WaitReturns? || step.CloseResults? {
      WaiterKeepsShape(cfg, s, step, s');
    } else {
      MainKeepsShape(cfg, s, step, s');
    }
  }

  lemma WorkerKeepsShape<D>(cfg: Config<D>, s: State, step: Step, s': State)
    requires ShapeInv(cfg, s) && Next(cfg, s, step, s') && Mover(s, step).Some?
    ensures ShapeInv(cfg, s')
  {
  }

  lemma WaiterKeepsShape<D>(cfg: Config<D>, s: State, step: Step, s': State)
    requires ShapeInv(cfg, s) && CountInv(s) && Next(cfg, s, step, s') && (step.WaitReturns? || step.CloseResults?)
    ensures ShapeInv(cfg, s')
  {
    SumIsZero(s.workers, Living);
  }

  lemma MainKeepsShape<D>(cfg: Config<D>, s: State, step: Step, s': State)
    requires ShapeInv(cfg, s) && Next(cfg, s, step, s')
    requires Mover(s, step).None? && !step.WaitReturns? && !step.CloseResults?
    ensures ShapeInv(cfg, s')
  {
  }

  lemma CountStep<D>(cfg: Config<D>, s: State, step: Step, s': State)
    requires CountInv(s) && ShapeInv(cfg, s) && Next(cfg, s, step, s')
    ensures CountInv(s')
  {
    WorkersStep(cfg, s, step, s', Living);
  }

  /** A step moves a service from one place to the next, and only feeding adds one. */
  lemma PlacesStep<D>(cfg: Config<D>, s: State, step: Step, s': State, i: nat)
    requires ShapeInv(cfg, s) && Next(cfg, s, step, s')
    ensures Places(s', i) == Places(s, i) + One(step.Feed? && i == Fed(cfg, s))
  {
    WorkersStep(cfg, s, step, s', Holding(i));
    match step
    case Feed => CopiesAfterAppend(s.services, Fed(cfg, s), i);
    case Take(_) => CopiesAfterTake(s.services, i);
    case Put(w) => CopiesAfterAppend(s.results, s.workers[w].i, i);
    case Collect =>
      CopiesAfterTake(s.results, i);
      CopiesAfterAppend(s.collected, s.results[0], i);
    case _ =>
  }

  lemma LadenStep<D>(cfg: Config<D>, s: State, step: Step, s': State)
    requires ShapeInv(cfg, s) && Next(cfg, s, step, s')
    ensures |s'.services| + Sum(s'.workers, Laden) + |s'.results| + |s'.collected| - Fed(cfg, s')
         == |s.services| + Sum(s.workers, Laden) + |s.results| + |s.collected| - Fed(cfg, s)
    ensures Fed(cfg, s') == Fed(cfg, s) + One(step.Feed?)
  {
    WorkersStep(cfg, s, step, s', Laden);
  }

  lemma ConservedStep<D>(cfg: Config<D>, s: State, step: Step, s': State)
    requires ShapeInv(cfg, s) && Conserved(cfg, s) && Next(cfg, s, step, s')
    ensures Conserved(cfg, s')
  {
    LadenStep(cfg, s, step, s');
    forall i: nat
      ensures Places(s', i) == One(i < Fed(cfg, s'))
    {
      PlacesStep(cfg, s, step, s', i);
    }
  }

  lemma ConservedInit<D>(cfg: Config<D>, s: State)
    requires Init(cfg, s)
    ensures CountInv(s) && Conserved(cfg, s)
  {
    SumIsZero(s.workers, Living);
    SumIsZero(s.workers, Laden);
    forall i: nat
      ensures Places(s, i) == 0
    {
      SumIsZero(s.workers, Holding(i));
    }
  }

  lemma {:induction false} RunKeepsInv<D>(cfg: Config<D>, run: seq<State>, k: nat)
    requires IsRun(cfg, run) && k < |run|
    ensures Inv(cfg, run[k])
  {
    if k == 0 {
      ConservedInit(cfg, run[0]);
    } else {
      RunKeepsInv(cfg, run, k - 1);
      assert Follows(cfg, run[k - 1], run[k - 1 + 1]);
      var step :| Next(cfg, run[k - 1], step, run[k]);
      ShapeStep(cfg, run[k - 1], step, run[k]);
      CountStep(cfg, run[k - 1], step, run[k]);
      ConservedStep(cfg, run[k - 1], step, run[k]);
    }
  }

  /** A sender never waits: each channel has room whenever a send on it is due. */
  lemma SendsNeverBlock<D>(cfg: Config<D>, s: State)
    requires ShapeInv(cfg, s) && Conserved(cfg, s)
    ensures Fed(cfg, s) < |cfg.services| ==> |s.services| < |cfg.services|
    ensures forall w | 0 <= w < |s.workers| && s.workers[w].Ready? :: |s.results| < |cfg.services|
  {
    SumIsZero(s.workers, Laden);
  }

  /** Results are closed only once every worker has exited, so nothing is ever sent on
      a closed channel, in any run; and there are no more workers than asked for or services. */
  lemma ChannelsAreSafe<D>(cfg: Config<D>, run: seq<State>, k: nat)
    requires IsRun(cfg, run) && k < |run|
    ensures var s := run[k];
            && s.waitGroup >= 0
            && |s.workers| == (if cfg.workerCount <= 0 then 0
                               else if cfg.workerCount <= |cfg.services| then cfg.workerCount else |cfg.services|)
            && (s.main.Spawning? || s.main.Feeding? ==> !s.servicesClosed)
            && (s.resultsClosed ==> forall w | 0 <= w < |s.workers| :: s.workers[w].Exited?)
            && (forall w | 0 <= w < |s.workers| && s.workers[w].Ready? :: |s.results| < |cfg.services|)
            && (Fed(cfg, s) < |cfg.services| ==> |s.services| < |cfg.services|)
  {
    RunKeepsInv(cfg, run, k);
    SendsNeverBlock(cfg, run[k]);
  }

  /** No deadlock, even when there is no worker to take the services. */
  lemma NeverStuck<D>(cfg: Config<D>, s: State) returns (s': State)
    requires Inv(cfg, s) && !Done(s.main)
    ensures Follows(cfg, s, s')
  {
    SendsNeverBlock(cfg, s);
    var step: Step;
    if s.main.Entered? {
      if cfg.services == [] {
        step := ReturnNil;
        s' := s.(main := ReturnedNil);
      } else {
        step := Begin;
        s' := s.(main := Spawning(0));
      }
    } else if s.main.Spawning? && s.main.next < |s.workers| {
      step := Spawn;
      s' := s.(main := Spawning(s.main.next + 1), waitGroup := s.waitGroup + 1,
          workers := s.workers[s.main.next := Idle]);
    } else if Fed(cfg, s) < |cfg.services| {
      step := Feed;
      s' := s.(main := Feeding(Fed(cfg, s) + 1), services := s.services + [Fed(cfg, s)]);
    } else if s.main.Feeding? {
      step := CloseServices;
      s' := s.(main := Launching, servicesClosed := true);
    } else if s.main.Launching? {
      step := StartWaiter;
      s' := s.(main := Collecting, waiter := Waiting);
    } else if s.results != [] {
      step := Collect;
      s' := s.(collected := s.collected + [s.results[0]], results := s.results[1..]);
    } else if s.resultsClosed {
      step := Return;
      s' := s.(main := Returned);
    } else if s.waiter.Closing? {
      step := CloseResults;
      s' := s.(waiter := Finished, resultsClosed := true);
    } else if w :| 0 <= w < |s.workers| && Alive(s.workers[w]) {
      if s.workers[w].Probing? {
        step := Probe(w);
        s' := s.(workers := s.workers[w := Ready(s.workers[w].i)]);
      } else if s.workers[w].Ready? {
        step := Put(w);
        s' := s.(workers := s.workers[w := Idle], results := s.results + [s.workers[w].i]);
      } else if s.services != [] {
        step := Take(w);
        s' := s.(workers := s.workers[w := Probing(s.services[0])], services := s.services[1..]);
      } else {
        step := Exit(w);
        s' := s.(workers := s.workers[w := Exited], waitGroup := s.waitGroup - 1);
      }
    } else {
      SumIsZero(s.workers, Living);
      step := WaitReturns;
      s' := s.(waiter := Closing);
    }
    assert Next(cfg, s, step, s');
  }

  /** A bound on the steps still to come. */
  ghost function Measure<D>(cfg: Config<D>, s: State): int {
    Sum(s.workers, Weight) + 5 * (|cfg.services| - Fed(cfg, s)) + 4 * |s.services| + |s.results|
    + (match s.waiter case NotStarted => 3 case Waiting => 2 case Closing => 1 case Finished => 0)
    + (match s.main case Entered => 4 case ReturnedNil => 3 case Spawning(_) => 3 case Feeding(_) => 3
        case Launching => 2 case Collecting => 1 case Returned => 0)
  }

  lemma StepsCountDown<D>(cfg: Config<D>, s: State, step: Step, s': State)
    requires ShapeInv(cfg, s) && Next(cfg, s, step, s')
    ensures Measure(cfg, s') < Measure(cfg, s)
  {
    WorkersStep(cfg, s, step, s', Weight);
  }

  lemma {:induction false} RunCountsDown<D>(cfg: Config<D>, run: seq<State>, k: nat)
    requires IsRun(cfg, run) && k < |run|
    ensures Measure(cfg, run[k]) + k <= 2 * cfg.Workers() + 5 * |cfg.services| + 7
  {
    if k == 0 {
      WeightOfUnborn(run[0].workers);
    } else {
      RunCountsDown(cfg, run, k - 1);
      RunKeepsInv(cfg, run, k - 1);
      assert Follows(cfg, run[k - 1], run[k - 1 + 1]);
      var step :| Next(cfg, run[k - 1], step, run[k]);
      StepsCountDown(cfg, run[k - 1], step, run[k]);
    }
  }

  /** Every run ends. */
  lemma RunsEnd<D>(cfg: Config<D>, run: seq<State>)
    requires IsRun(cfg, run)
    ensures |run| - 1 <= 2 * cfg.Workers() + 5 * |cfg.services| + 7
  {
    RunCountsDown(cfg, run, |run| - 1);
    RunKeepsInv(cfg, run, |run| - 1);
  }

  // ----- what ParallelProbe returns -----

  ghost function ResultOf<D>(cfg: Config<D>, i: nat): Result<D>
  {
    Result(if i < |cfg.services| then cfg.services[i] else "", cfg.outcomes(i))
  }

  ghost function Results<D>(cfg: Config<D>, positions: seq<nat>): seq<Result<D>>
  {
    seq(|positions|, k requires 0 <= k < |positions| => ResultOf(cfg, positions[k]))
  }

  /** The pairs of each service with the outcome of its probe. */
  ghost function Pairs<D>(cfg: Config<D>, n: nat): seq<Result<D>>
    requires n <= |cfg.services|
  {
    seq(n, i requires 0 <= i < n => Result(cfg.services[i], cfg.outcomes(i)))
  }

  lemma ResultsWithout<D>(cfg: Config<D>, positions: seq<nat>, k: nat)
    requires k < |positions|
    ensures multiset(Results(cfg, positions))
         == multiset(Results(cfg, positions[..k] + positions[k + 1..])) + multiset{ResultOf(cfg, positions[k])}
  {
    var before, after := positions[..k], positions[k + 1..];
    assert Results(cfg, before + after) == Results(cfg, before) + Results(cfg, after);
    assert Results(cfg, positions) == Results(cfg, before) + [ResultOf(cfg, positions[k])] + Results(cfg, after);
  }

  /** Each of the first `n` positions stands in the sequence once, and no other. */
  ghost predicate EachOnce(positions: seq<nat>, n: nat) {
    forall i: nat :: Copies(positions, i) == One(i < n)
  }

  /** Of positions that stand once each, those without the last one stand once each. */
  lemma WithoutLast(positions: seq<nat>, n: nat) returns (k: nat)
    requires n > 0 && EachOnce(positions, n)
    ensures k < |positions| && positions[k] == n - 1
    ensures EachOnce(positions[..k] + positions[k + 1..], n - 1)
  {
    CopiesFound(positions, n - 1);
    k :| 0 <= k < |positions| && positions[k] == n - 1;
    var rest := positions[..k] + positions[k + 1..];
    forall i: nat
      ensures Copies(rest, i) == One(i < n - 1)
    {
      CopiesWithout(positions, k, i);
    }
  }

  lemma PairsNext<D>(cfg: Config<D>, n: nat)
    requires 0 < n <= |cfg.services|
    ensures multiset(Pairs(cfg, n)) == multiset(Pairs(cfg, n - 1)) + multiset{ResultOf(cfg, n - 1)}
  {
    assert Pairs(cfg, n) == Pairs(cfg, n - 1) + [ResultOf(cfg, n - 1)];
  }

  lemma {:induction false} ResultsOfEachOnce<D>(cfg: Config<D>, positions: seq<nat>, n: nat)
    requires n <= |cfg.services| && EachOnce(positions, n)
    ensures multiset(Results(cfg, positions)) == multiset(Pairs(cfg, n))
  {
    if n == 0 {
      if positions != [] {
        CopiesFound(positions, positions[0]);
      }
    } else {
      var k := WithoutLast(positions, n);
      ResultsOfEachOnce(cfg, positions[..k] + positions[k + 1..], n - 1);
      ResultsWithout(cfg, positions, k);
      PairsNext(cfg, n);
    }
  }

  /** In every schedule the results are exactly the services, each with the outcome of its
      probe; and that is so exactly when the pool has a positive number of workers or there
      is nothing to probe, since without workers nothing is probed and nothing returned. */
  lemma ProbeReturnsAll<D>(cfg: Config<D>, run: seq<State>)
    requires IsRun(cfg, run) && Done(run[|run| - 1].main)
    ensures var results := Results(cfg, run[|run| - 1].collected);
            && (cfg.workerCount <= 0 ==> results == [])
            && (multiset(results) == multiset(Pairs(cfg, |cfg.services|))
                <==> cfg.workerCount > 0 || cfg.services == [])
  {
    var s := run[|run| - 1];
    RunKeepsInv(cfg, run, |run| - 1);
    if s.main.ReturnedNil? {
      assert Pairs(cfg, 0) == [] && Results(cfg, []) == [];
    } else if cfg.workerCount > 0 {
      AllInHand(cfg, s);
      ResultsOfEachOnce(cfg, s.collected, |cfg.services|);
    } else {
      NothingCollected(cfg, run, |run| - 1);
      assert |multiset(Pairs(cfg, |cfg.services|))| == |cfg.services|;
    }
  }

  /** So a pool from NewServicePool always returns every result. */
  lemma NewPoolReturnsAll<D>(cfg: Config<D>, workers: int, run: seq<State>)
    requires cfg.workerCount == NewServicePool(workers) && IsRun(cfg, run) && Done(run[|run| - 1].main)
    ensures cfg.workerCount == if workers <= 0 then 10 else workers
    ensures multiset(Results(cfg, run[|run| - 1].collected)) == multiset(Pairs(cfg, |cfg.services|))
  {
    ProbeReturnsAll(cfg, run);
  }

  /** When ParallelProbe returns, every place but the result slice is empty. */
  lemma AllInHand<D>(cfg: Config<D>, s: State)
    requires cfg.workerCount > 0 && cfg.services != [] && Inv(cfg, s) && s.main.Returned?
    ensures EachOnce(s.collected, |cfg.services|)
  {
    assert s.workers[0].Exited?;
    forall i: nat
      ensures Copies(s.collected, i) == One(i < |cfg.services|)
    {
      SumIsZero(s.workers, Holding(i));
      assert Places(s, i) == One(i < |cfg.services|);
    }
  }

  lemma {:induction false} NothingCollected<D>(cfg: Config<D>, run: seq<State>, k: nat)
    requires IsRun(cfg, run) && k < |run| && cfg.workerCount <= 0
    ensures run[k].results == [] && run[k].collected == [] && run[k].workers == []
  {
    if k > 0 {
      NothingCollected(cfg, run, k - 1);
      assert Follows(cfg, run[k - 1], run[k - 1 + 1]);
    }
  }
}
