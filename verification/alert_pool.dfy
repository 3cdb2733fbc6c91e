/** Process: one goroutine feeds a batch of alerts over an unbuffered channel to
    a pool of workers, whose results the caller collects over another. The model
    is a state machine whose steps are the rendezvous on the channels, the closes,
    the wait group, and the atomic regions of processAlert. */
module AlertPool {
  import opened AlertEffects
  import opened Collections
  import opened AlertProcessing
  import opened FingerprintCaching

  // ----- one alert, in atomic steps -----

  /** A processor as NewProcessor builds it, and the batch it is given. */
  datatype Config = Config(
    rules: seq<Rule>, ttl: int, digest: string -> string, dryRun: bool,
    start: Entries, workers: nat, alerts: seq<Alert>)
  {
    ghost function Key(i: nat): string
      requires i < |alerts|
    {
      LookupKey(alerts[i], digest)
    }
  }

  datatype Result = Result(decisions: Trail<Decision>, warnings: Trail<Warning>)

  function ResultOf(e: Effect): Result {
    Result(e.decisions, e.warnings)
  }

  datatype Stage =
    | Taken
    | Counted                               // counted as received
    | Clocked(now: int)                     // the clock is read before the cache is locked
    | Duplicate                             // refused by the cache, not yet counted so
    | Passed                                // past deduplication
    | Settling(effect: Effect)              // applied, its counter not yet added to
    | Ready(duplicate: bool, result: Result) // about to send

  /** What the workers share: the cache entries and the counters. */
  datatype Shared = Shared(entries: Entries, counts: Counts)

  /** One atomic step of processAlert on the i-th alert. */
  ghost predicate TaskStep(cfg: Config, i: nat, s: Stage, sh: Shared, s': Stage, sh': Shared)
    requires i < |cfg.alerts|
  {
    var alert, key := cfg.alerts[i], cfg.Key(i);
    match s
    case Taken => s' == Counted && sh' == sh.(counts := sh.counts.(received := sh.counts.received + 1))
    case Counted =>
      && sh' == sh
      && (if Get(alert.labels, "alertname") == "" then s' == Ready(false, Result(Empty, Then(Empty, MissingName)))
          else if key == "" then s' == Passed
          else s'.Clocked?)
    case Clocked(now) =>
      && s' == (if Live(sh.entries, cfg.ttl, key, now) then Duplicate else Passed)
      && sh' == sh.(entries := After(sh.entries, cfg.ttl, Call(key, now)))
    case Duplicate =>
      var e := NOTHING.(counter := Deduped, warnings := Then(Empty, DuplicateSkipped(Get(alert.labels, "alertname"))));
      s' == Ready(true, ResultOf(e)) && sh' == sh.(counts := sh.counts.Plus(e))
    case Passed => sh' == sh && s'.Settling? && exists a :: s'.effect == PassedEffect(cfg.rules, alert, a, cfg.dryRun)
    case Settling(e) => s' == Ready(false, ResultOf(e)) && sh' == sh.(counts := sh.counts.Plus(e))
    case Ready(_, _) => false
  }

  /** The result is one processAlert can give for the alert, by whether it was refused as a duplicate. */
  ghost predicate Possible(cfg: Config, i: nat, duplicate: bool, result: Result)
    requires i < |cfg.alerts|
  {
    exists a :: result == ResultOf(AlertEffect(cfg.rules, cfg.alerts[i], duplicate, a, cfg.dryRun))
  }

  // ----- the goroutines -----

  datatype Worker = Unborn | Idle | Busy(i: nat, stage: Stage) | Exited

  datatype Feeder = NotStarted | Feeding(next: nat) | Waiting | Closing | Finished

  datatype Main = Spawning(next: nat) | Collecting | Returned

  /** A look-up the cache has answered. */
  datatype Lookup = Lookup(i: nat, call: Call, passed: bool)

  datatype Collected = Collected(i: nat, duplicate: bool, result: Result)

  datatype State = State(
    main: Main, feeder: Feeder, workers: seq<Worker>, waitGroup: int,
    jobsClosed: bool, resultsClosed: bool,
    shared: Shared, log: seq<Lookup>,
    collected: seq<Collected>, output: Result)

  datatype Step =
    | Spawn
    | StartFeeder
    | Feed(w: nat)       // rendezvous: the feeder sends, worker w receives
    | CloseJobs
    | Work(w: nat)       // worker w takes one step of processAlert
    | Send(w: nat)       // rendezvous: worker w sends, the caller receives
    | Exit(w: nat)       // worker w finds the channel closed
    | WaitReturns
    | CloseResults
    | Return

  function Concat<T>(a: Trail<T>, b: Trail<T>): Trail<T> {
    if b.Empty? then a else Then(Concat(a, b.before), b.last)
  }

  function Join(a: Result, b: Result): Result {
    Result(Concat(a.decisions, b.decisions), Concat(a.warnings, b.warnings))
  }

  function JoinAll(collected: seq<Collected>): Result {
    if collected == [] then Result(Empty, Empty)
    else Join(JoinAll(collected[..|collected| - 1]), collected[|collected| - 1].result)
  }

  ghost predicate Init(cfg: Config, s: State) {
    && s.main == Spawning(0) && s.feeder == NotStarted
    && s.workers == seq(cfg.workers, k => Unborn) && s.waitGroup == 0
    && !s.jobsClosed && !s.resultsClosed
    && s.shared.entries == cfg.start && s.log == []
    && s.collected == [] && s.output == Result(Empty, Empty)
  }

  ghost predicate Next(cfg: Config, s: State, step: Step, s': State) {
    match step
    case Spawn =>
      && s.main.Spawning? && s.main.next < |s.workers|
      && s' == s.(main := Spawning(s.main.next + 1), waitGroup := s.waitGroup + 1,
         workers := s.workers[s.main.next := Idle])
    case StartFeeder =>
      && s.main.Spawning? && s.main.next == |s.workers|
      && s' == s.(main := Collecting, feeder := Feeding(0))
    case Feed(w) =>
      && s.feeder.Feeding? && s.feeder.next < |cfg.alerts| && !s.jobsClosed
      && w < |s.workers| && s.workers[w].Idle?
      && s' == s.(feeder := Feeding(s.feeder.next + 1), workers := s.workers[w := Busy(s.feeder.next, Taken)])
    case CloseJobs =>
      && s.feeder.Feeding? && s.feeder.next == |cfg.alerts|
      && s' == s.(feeder := Waiting, jobsClosed := true)
    case Work(w) =>
      && w < |s.workers| && s.workers[w].Busy? && s.workers[w].i < |cfg.alerts|
      && |s'.workers| == |s.workers| && s'.workers == s.workers[w := s'.workers[w]]
      && s'.workers[w].Busy? && s'.workers[w].i == s.workers[w].i
      && TaskStep(cfg, s.workers[w].i, s.workers[w].stage, s.shared, s'.workers[w].stage, s'.shared)
      && s' == s.(workers := s'.workers, shared := s'.shared, log := LogAfter(cfg, s, w))
    case Send(w) =>
      && s.main.Collecting? && !s.resultsClosed
      && w < |s.workers| && s.workers[w].Busy? && s.workers[w].stage.Ready?
      && var ready := s.workers[w].stage;
         s' == s.(workers := s.workers[w := Idle],
                  collected := s.collected + [Collected(s.workers[w].i, ready.duplicate, ready.result)],
                  output := Join(s.output, ready.result))
    case Exit(w) =>
      && w < |s.workers| && s.workers[w].Idle? && s.jobsClosed
      && s' == s.(workers := s.workers[w := Exited], waitGroup := s.waitGroup - 1)
    case WaitReturns =>
      && s.feeder.Waiting? && s.waitGroup == 0
      && s' == s.(feeder := Closing)
    case CloseResults =>
      && s.feeder.Closing?
      && s' == s.(feeder := Finished, resultsClosed := true)
    case Return =>
      && s.main.Collecting? && s.resultsClosed
      && s' == s.(main := Returned)
  }

  /** A look-up is logged when it takes the lock. */
  ghost function LogAfter(cfg: Config, s: State, w: nat): seq<Lookup>
    requires w < |s.workers| && s.workers[w].Busy? && s.workers[w].i < |cfg.alerts|
  {
    var i, stage := s.workers[w].i, s.workers[w].stage;
    if stage.Clocked? then
      s.log + [Lookup(i, Call(cfg.Key(i), stage.now), !Live(s.shared.entries, cfg.ttl, cfg.Key(i), stage.now))]
    else s.log
  }

  ghost predicate Follows(cfg: Config, s: State, s': State) {
    exists step :: Next(cfg, s, step, s')
  }

  /** A run: each state follows from the one before by some step. */
  ghost predicate IsRun(cfg: Config, run: seq<State>) {
    && run != [] && Init(cfg, run[0])
    && forall k | 0 <= k < |run| - 1 :: Follows(cfg, run[k], run[k + 1])
  }

  // ----- counting workers -----

  function Weight(w: Worker): nat {
    match w
    case Unborn => 2
    case Idle => 1
    case Exited => 0
    case Busy(_, stage) =>
      match stage
      case Taken => 7
      case Counted => 6
      case Clocked(_) => 5
      case Passed => 4
      case Settling(_) => 3
      case Duplicate => 3
      case Ready(_, _) => 2
  }

  predicate Alive(w: Worker) {
    w.Idle? || w.Busy?
  }

  function Living(w: Worker): nat {
    One(Alive(w))
  }

  lemma {:induction false} WeightOfUnborn(workers: seq<Worker>)
    requires forall k | 0 <= k < |workers| :: workers[k].Unborn?
    ensures Sum(workers, Weight) == 2 * |workers|
  {
    if workers != [] {
      WeightOfUnborn(workers[..|workers| - 1]);
    }
  }

  /** The worker a step moves, if it moves one. */
  function Mover(s: State, step: Step): Option<nat> {
    match step
    case Spawn => if s.main.Spawning? then Some(s.main.next) else None
    case Feed(w) => Some(w)
    case Work(w) => Some(w)
    case Send(w) => Some(w)
    case Exit(w) => Some(w)
    case _ => None
  }

  /** What a step does to the workers, taken together. */
  lemma WorkersStep(cfg: Config, s: State, step: Step, s': State, f: Worker -> nat)
    requires Next(cfg, s, step, s')
    ensures match Mover(s, step)
            case None => s'.workers == s.workers
            case Some(w) =>
              && w < |s.workers| && s'.workers == s.workers[w := s'.workers[w]]
              && Sum(s'.workers, f) == Sum(s.workers, f) - f(s.workers[w]) + f(s'.workers[w])
  {
    var mover := Mover(s, step);
    if mover.Some? {
      SumAfterUpdate(s.workers, f, mover.value, s'.workers[mover.value]);
    }
  }

  // ----- what every state keeps -----

  /** Who has started, who has finished, and what is closed. */
  ghost predicate ShapeInv(cfg: Config, s: State) {
    && |s.workers| == cfg.workers
    && (s.main.Spawning? ==> s.main.next <= |s.workers|)
    && (forall k | 0 <= k < |s.workers| :: s.workers[k].Unborn? <==> s.main.Spawning? && k >= s.main.next)
    && (s.feeder.NotStarted? <==> s.main.Spawning?)
    && (s.feeder.Feeding? ==> s.feeder.next <= |cfg.alerts|)
    && (s.jobsClosed <==> s.feeder.Waiting? || s.feeder.Closing? || s.feeder.Finished?)
    && (s.resultsClosed <==> s.feeder.Finished?)
    && (s.main.Returned? ==> s.resultsClosed)
    && (forall k | 0 <= k < |s.workers| && s.workers[k].Exited? :: s.jobsClosed)
    && (s.feeder.Closing? || s.feeder.Finished? ==> forall k | 0 <= k < |s.workers| :: s.workers[k].Exited?)
  }

  /** The wait group counts the workers that have started and not yet finished. */
  ghost predicate CountInv(s: State) {
    s.waitGroup == Sum(s.workers, Living)
  }

  /** How many alerts the feeder has handed over. */
  ghost function Fed(cfg: Config, s: State): nat {
    match s.feeder
    case NotStarted => 0
    case Feeding(next) => next
    case _ => |cfg.alerts|
  }

  ghost predicate Holds(s: State, k: int, i: nat) {
    0 <= k < |s.workers| && s.workers[k].Busy? && s.workers[k].i == i
  }

  ghost predicate WasCollected(s: State, i: nat) {
    exists c | 0 <= c < |s.collected| :: s.collected[c].i == i
  }

  /** Each alert handed over is with one worker or collected once, and no other alert is anywhere. */
  ghost predicate OnceInv(cfg: Config, s: State) {
    && Fed(cfg, s) <= |cfg.alerts|
    && (forall k: int, i: nat | Holds(s, k, i) :: i < Fed(cfg, s) && !WasCollected(s, i))
    && (forall j: int, k: int, i: nat | Holds(s, j, i) && Holds(s, k, i) :: j == k)
    && (forall c | 0 <= c < |s.collected| :: s.collected[c].i < Fed(cfg, s))
    && (forall c, d | 0 <= c < d < |s.collected| :: s.collected[c].i != s.collected[d].i)
    && (forall i: nat | i < Fed(cfg, s) :: WasCollected(s, i) || exists k :: Holds(s, k, i))
    && s.output == JoinAll(s.collected)
  }

  // ----- the invariants hold in every run -----

  lemma ShapeInit(cfg: Config, s: State)
    requires Init(cfg, s)
    ensures ShapeInv(cfg, s) && CountInv(s) && OnceInv(cfg, s)
  {
    SumIsZero(s.workers, Living);
  }

  lemma ShapeStep(cfg: Config, s: State, step: Step, s': State)
    requires ShapeInv(cfg, s) && CountInv(s) && Next(cfg, s, step, s')
    ensures ShapeInv(cfg, s')
  {
    if step.WaitReturns? {
      SumIsZero(s.workers, Living);
    }
  }

  lemma CountStep(cfg: Config, s: State, step: Step, s': State)
    requires ShapeInv(cfg, s) && CountInv(s) && Next(cfg, s, step, s')
    ensures CountInv(s')
  {
    WorkersStep(cfg, s, step, s', Living);
  }

  /** Steps that move no alert. */
  lemma OnceSame(cfg: Config, s: State, s': State)
    requires OnceInv(cfg, s)
    requires s'.collected == s.collected && s'.output == s.output && Fed(cfg, s') == Fed(cfg, s)
    requires forall k: int, i: nat :: Holds(s', k, i) <==> Holds(s, k, i)
    ensures OnceInv(cfg, s')
  {
    assert forall i: nat :: WasCollected(s', i) <==> WasCollected(s, i);
  }

  lemma OnceFeed(cfg: Config, s: State, w: nat, s': State)
    requires ShapeInv(cfg, s) && OnceInv(cfg, s) && Next(cfg, s, Feed(w), s')
    ensures OnceInv(cfg, s')
  {
    var next := s.feeder.next;
    assert forall i: nat :: WasCollected(s', i) <==> WasCollected(s, i);
    assert Holds(s', w, next);
    assert forall k: int, i: nat :: Holds(s', k, i) <==> if k == w then i == next else Holds(s, k, i);
    assert forall i: nat :: !Holds(s, w, i);
  }

  lemma CollectedNext(s: State, s': State, c: Collected, i: nat)
    requires s'.collected == s.collected + [c]
    ensures WasCollected(s', i) <==> WasCollected(s, i) || i == c.i
  {
    assert s'.collected[|s.collected|].i == c.i;
    assert forall k | 0 <= k < |s.collected| :: s'.collected[k] == s.collected[k];
  }

  lemma JoinNext(collected: seq<Collected>, c: Collected)
    ensures JoinAll(collected + [c]) == Join(JoinAll(collected), c.result)
  {
    assert (collected + [c])[..|collected|] == collected;
  }

  /** An alert moves from a worker to the caller. */
  lemma OnceMoved(cfg: Config, s: State, w: nat, sent: Collected, s': State)
    requires OnceInv(cfg, s) && Holds(s, w, sent.i) && Fed(cfg, s') == Fed(cfg, s)
    requires s'.collected == s.collected + [sent] && s'.output == Join(s.output, sent.result)
    requires forall k: int, i: nat :: Holds(s', k, i) <==> k != w && Holds(s, k, i)
    ensures OnceInv(cfg, s')
  {
    forall i: nat
      ensures WasCollected(s', i) <==> WasCollected(s, i) || i == sent.i
    {
      CollectedNext(s, s', sent, i);
    }
    JoinNext(s.collected, sent);
    CollectedOnce(cfg, s, sent);
  }

  lemma CollectedOnce(cfg: Config, s: State, sent: Collected)
    requires OnceInv(cfg, s) && sent.i < Fed(cfg, s) && !WasCollected(s, sent.i)
    ensures var more := s.collected + [sent];
            && (forall c | 0 <= c < |more| :: more[c].i < Fed(cfg, s))
            && (forall c, d | 0 <= c < d < |more| :: more[c].i != more[d].i)
  {
    assert forall c | 0 <= c < |s.collected| :: WasCollected(s, s.collected[c].i);
  }

  lemma OnceSend(cfg: Config, s: State, w: nat, s': State)
    requires OnceInv(cfg, s) && Next(cfg, s, Send(w), s')
    ensures OnceInv(cfg, s')
  {
    var sent := s'.collected[|s.collected|];
    assert Holds(s, w, sent.i);
    OnceMoved(cfg, s, w, sent, s');
  }

  lemma OnceStep(cfg: Config, s: State, step: Step, s': State)
    requires ShapeInv(cfg, s) && OnceInv(cfg, s) && Next(cfg, s, step, s')
    ensures OnceInv(cfg, s')
  {
    match step
    case Feed(w) => OnceFeed(cfg, s, w, s');
    case Send(w) => OnceSend(cfg, s, w, s');
    case _ => OnceSame(cfg, s, s');
  }

  // ----- what has been decided about each alert -----

  ghost predicate InLog(log: seq<Lookup>, i: nat) {
    exists m | 0 <= m < |log| :: log[m].i == i
  }

  ghost predicate LogSays(log: seq<Lookup>, i: nat, passed: bool) {
    exists m | 0 <= m < |log| :: log[m].i == i && log[m].passed == passed
  }

  /** The stage an alert has reached agrees with what the cache told it. */
  ghost predicate Agrees(cfg: Config, log: seq<Lookup>, i: nat, stage: Stage) {
    i < |cfg.alerts| &&
    var key := cfg.Key(i);
    var passed := if key == "" then !InLog(log, i) else LogSays(log, i, true);
    match stage
    case Taken => !InLog(log, i)
    case Counted => !InLog(log, i)
    case Clocked(_) => !InLog(log, i) && key != ""
    case Duplicate => key != "" && LogSays(log, i, false)
    case Passed => passed && Get(cfg.alerts[i].labels, "alertname") != ""
    case Settling(e) =>
      && passed && Get(cfg.alerts[i].labels, "alertname") != ""
      && exists a :: e == PassedEffect(cfg.rules, cfg.alerts[i], a, cfg.dryRun)
    case Ready(duplicate, result) =>
      && Possible(cfg, i, duplicate, result)
      && (if duplicate then key != "" && LogSays(log, i, false) else passed)
  }

  ghost predicate AgreeInv(cfg: Config, s: State) {
    && (forall m | 0 <= m < |s.log| :: s.log[m].i < Fed(cfg, s))
    && (forall k | 0 <= k < |s.workers| && s.workers[k].Busy? :: Agrees(cfg, s.log, s.workers[k].i, s.workers[k].stage))
    && (forall c | 0 <= c < |s.collected| ::
          Agrees(cfg, s.log, s.collected[c].i, Ready(s.collected[c].duplicate, s.collected[c].result)))
  }

  lemma TaskAgrees(cfg: Config, s: State, i: nat, stage: Stage, stage': Stage, sh': Shared, log': seq<Lookup>)
    requires Agrees(cfg, s.log, i, stage) && TaskStep(cfg, i, stage, s.shared, stage', sh')
    requires log' == if stage.Clocked?
                     then s.log + [Lookup(i, Call(cfg.Key(i), stage.now),
                         !Live(s.shared.entries, cfg.ttl, cfg.Key(i), stage.now))]
                     else s.log
    ensures Agrees(cfg, log', i, stage')
  {
    var alert := cfg.alerts[i];
    match stage
    case Counted =>
      if stage'.Ready? {
        ghost var a: Answers :| true;
        assert stage'.result == ResultOf(AlertEffect(cfg.rules, alert, false, a, cfg.dryRun));
      }
    case Clocked(now) =>
      assert log'[|s.log|].i == i;
    case Duplicate =>
      ghost var a: Answers :| true;
      assert stage'.result == ResultOf(AlertEffect(cfg.rules, alert, true, a, cfg.dryRun));
    case Settling(e) =>
      var a :| e == PassedEffect(cfg.rules, alert, a, cfg.dryRun);
      assert e == AlertEffect(cfg.rules, alert, false, a, cfg.dryRun);
    case _ =>
  }

  lemma LogGrows(cfg: Config, log: seq<Lookup>, entry: Lookup, i: nat, stage: Stage)
    requires i != entry.i && Agrees(cfg, log, i, stage)
    ensures Agrees(cfg, log + [entry], i, stage)
  {
    var more := log + [entry];
    assert forall m | 0 <= m < |log| :: more[m] == log[m];
    assert InLog(more, i) <==> InLog(log, i) by {
      if m :| 0 <= m < |log| && log[m].i == i {
        assert more[m].i == i;
      }
    }
    forall passed | LogSays(log, i, passed)
      ensures LogSays(more, i, passed)
    {
      var m :| 0 <= m < |log| && log[m].i == i && log[m].passed == passed;
      assert more[m].i == i && more[m].passed == passed;
    }
  }

  lemma AgreeWork(cfg: Config, s: State, w: nat, s': State)
    requires ShapeInv(cfg, s) && OnceInv(cfg, s) && AgreeInv(cfg, s) && Next(cfg, s, Work(w), s')
    ensures AgreeInv(cfg, s')
  {
    var i, stage := s.workers[w].i, s.workers[w].stage;
    TaskAgrees(cfg, s, i, stage, s'.workers[w].stage, s'.shared, s'.log);
    assert Holds(s, w, i);
    if stage.Clocked? {
      forall k | 0 <= k < |s.workers| && k != w && s.workers[k].Busy?
        ensures Agrees(cfg, s'.log, s.workers[k].i, s.workers[k].stage)
      {
        assert Holds(s, k, s.workers[k].i);
        LogGrows(cfg, s.log, s'.log[|s.log|], s.workers[k].i, s.workers[k].stage);
      }
      forall c | 0 <= c < |s.collected|
        ensures Agrees(cfg, s'.log, s.collected[c].i, Ready(s.collected[c].duplicate, s.collected[c].result))
      {
        assert WasCollected(s, s.collected[c].i);
        LogGrows(cfg, s.log, s'.log[|s.log|], s.collected[c].i, Ready(s.collected[c].duplicate, s.collected[c].result));
      }
    }
  }

  /** Steps that change no alert's stage and log nothing. */
  lemma AgreeSame(cfg: Config, s: State, s': State)
    requires AgreeInv(cfg, s) && s'.log == s.log && s'.collected == s.collected && Fed(cfg, s) <= Fed(cfg, s')
    requires |s'.workers| == |s.workers|
    requires forall k | 0 <= k < |s.workers| && s'.workers[k].Busy? :: s'.workers[k] == s.workers[k]
    ensures AgreeInv(cfg, s')
  {
  }

  lemma AgreeFeed(cfg: Config, s: State, w: nat, s': State)
    requires AgreeInv(cfg, s) && Next(cfg, s, Feed(w), s')
    ensures AgreeInv(cfg, s')
  {
    assert Agrees(cfg, s.log, s.feeder.next, Taken);
  }

  lemma AgreeSend(cfg: Config, s: State, w: nat, s': State)
    requires AgreeInv(cfg, s) && Next(cfg, s, Send(w), s')
    ensures AgreeInv(cfg, s')
  {
    assert Agrees(cfg, s.log, s.workers[w].i, s.workers[w].stage);
  }

  lemma AgreeStep(cfg: Config, s: State, step: Step, s': State)
    requires ShapeInv(cfg, s) && OnceInv(cfg, s) && AgreeInv(cfg, s) && Next(cfg, s, step, s')
    ensures AgreeInv(cfg, s')
  {
    match step
    case Work(w) => AgreeWork(cfg, s, w, s');
    case Feed(w) => AgreeFeed(cfg, s, w, s');
    case Send(w) => AgreeSend(cfg, s, w, s');
    case _ => AgreeSame(cfg, s, s');
  }

  // ----- the cache behind the log -----

  ghost function Calls(log: seq<Lookup>): seq<Call> {
    seq(|log|, m requires 0 <= m < |log| => log[m].call)
  }

  /** The log holds at most one look-up for each alert, with its key. */
  ghost predicate LogNamed(cfg: Config, log: seq<Lookup>) {
    && (forall m | 0 <= m < |log| :: log[m].i < |cfg.alerts| && log[m].call.key == cfg.Key(log[m].i))
    && (forall m, n | 0 <= m < n < |log| :: log[m].i != log[n].i)
  }

  /** The log is a run of the cache: it gave these verdicts and was left with these entries. */
  ghost predicate LogRuns(start: Entries, ttl: int, entries: Entries, log: seq<Lookup>) {
    && entries == CacheAfter(start, ttl, Calls(log))
    && forall m | 0 <= m < |log| :: log[m].passed == Accepts(start, ttl, Calls(log), m)
  }

  /** The look-ups a step has logged. */
  ghost function Added(s: State, s': State): seq<Lookup> {
    if |s.log| <= |s'.log| then s'.log[|s.log|..] else []
  }

  lemma CacheNext(start: Entries, ttl: int, calls: seq<Call>, call: Call)
    ensures CacheAfter(start, ttl, calls + [call]) == After(CacheAfter(start, ttl, calls), ttl, call)
    ensures Accepts(start, ttl, calls + [call], |calls|)
       <==> !Live(CacheAfter(start, ttl, calls), ttl, call.key, call.now)
  {
    assert (calls + [call])[..|calls|] == calls;
  }

  /** A look-up appended to the log leaves the earlier verdicts as they were. */
  lemma LogAppend(start: Entries, ttl: int, entries: Entries, log: seq<Lookup>, last: Lookup)
    requires LogRuns(start, ttl, entries, log)
    requires last.passed == !Live(entries, ttl, last.call.key, last.call.now)
    ensures LogRuns(start, ttl, After(entries, ttl, last.call), log + [last])
  {
    var calls, more := Calls(log), Calls(log + [last]);
    assert more == calls + [last.call];
    CacheNext(start, ttl, calls, last.call);
    forall m | 0 <= m < |log| + 1
      ensures (log + [last])[m].passed == Accepts(start, ttl, more, m)
    {
      if m < |log| {
        AcceptsInPrefix(start, ttl, more, |log|, m);
        assert more[..|log|] == calls;
      }
    }
  }

  /** Every step extends any run of the cache by the look-ups it logs. */
  lemma LogStep(cfg: Config, s: State, step: Step, s': State, start: Entries, log: seq<Lookup>)
    requires Next(cfg, s, step, s') && LogRuns(start, cfg.ttl, s.shared.entries, log)
    ensures s'.log == s.log + Added(s, s') && LogRuns(start, cfg.ttl, s'.shared.entries, log + Added(s, s'))
  {
    if LooksUp(s, step) {
      var last := LookupLogged(cfg, s, step.w, s');
      LogAppend(start, cfg.ttl, s.shared.entries, log, last);
    } else {
      NothingLogged(cfg, s, step, s');
      assert log + [] == log;
    }
  }

  ghost predicate LooksUp(s: State, step: Step) {
    step.Work? && step.w < |s.workers| && s.workers[step.w].Busy? && s.workers[step.w].stage.Clocked?
  }

  lemma LookupLogged(cfg: Config, s: State, w: nat, s': State) returns (last: Lookup)
    requires Next(cfg, s, Work(w), s') && LooksUp(s, Work(w))
    ensures s'.log == s.log + [last] && Added(s, s') == [last]
    ensures last.passed == !Live(s.shared.entries, cfg.ttl, last.call.key, last.call.now)
    ensures s'.shared.entries == After(s.shared.entries, cfg.ttl, last.call)
  {
    last := s'.log[|s.log|];
  }

  lemma NothingLogged(cfg: Config, s: State, step: Step, s': State)
    requires Next(cfg, s, step, s') && !LooksUp(s, step)
    ensures s'.log == s.log && Added(s, s') == [] && s'.shared.entries == s.shared.entries
  {
  }

  lemma NamedStep(cfg: Config, s: State, step: Step, s': State)
    requires AgreeInv(cfg, s) && LogNamed(cfg, s.log) && Next(cfg, s, step, s')
    ensures LogNamed(cfg, s'.log)
  {
    if step.Work? && s.workers[step.w].stage.Clocked? {
      var w := s.workers[step.w];
      assert !InLog(s.log, w.i);
      assert forall m | 0 <= m < |s.log| :: s'.log[m] == s.log[m];
    }
  }

  // ----- runs -----

  /** What every step keeps, whatever else is done with the cache in between. */
  ghost predicate PoolInv(cfg: Config, s: State) {
    ShapeInv(cfg, s) && CountInv(s) && OnceInv(cfg, s) && AgreeInv(cfg, s) && LogNamed(cfg, s.log)
  }

  lemma PoolStep(cfg: Config, s: State, step: Step, s': State)
    requires PoolInv(cfg, s) && Next(cfg, s, step, s')
    ensures PoolInv(cfg, s')
  {
    ShapeStep(cfg, s, step, s');
    CountStep(cfg, s, step, s');
    OnceStep(cfg, s, step, s');
    AgreeStep(cfg, s, step, s');
    NamedStep(cfg, s, step, s');
  }

  ghost predicate Inv(cfg: Config, s: State) {
    PoolInv(cfg, s) && LogRuns(cfg.start, cfg.ttl, s.shared.entries, s.log)
  }

  lemma {:induction false} RunKeepsInv(cfg: Config, run: seq<State>, k: nat)
    requires IsRun(cfg, run) && k < |run|
    ensures Inv(cfg, run[k])
  {
    if k == 0 {
      ShapeInit(cfg, run[0]);
      assert Calls([]) == [];
    } else {
      RunKeepsInv(cfg, run, k - 1);
      assert Follows(cfg, run[k - 1], run[k - 1 + 1]);
      var step :| Next(cfg, run[k - 1], step, run[k]);
      PoolStep(cfg, run[k - 1], step, run[k]);
      LogStep(cfg, run[k - 1], step, run[k], cfg.start, run[k - 1].log);
    }
  }

  /** In no run is anything sent on a closed channel or a channel closed twice, and the
      wait group never goes below zero. */
  lemma ChannelsAreSafe(cfg: Config, run: seq<State>, k: nat)
    requires IsRun(cfg, run) && k < |run|
    ensures var s := run[k];
            && s.waitGroup >= 0
            && (s.feeder.Feeding? ==> !s.jobsClosed)
            && (s.feeder.Closing? ==> !s.resultsClosed)
            && (s.resultsClosed ==> forall w | 0 <= w < |s.workers| :: s.workers[w].Exited?)
  {
    RunKeepsInv(cfg, run, k);
  }

  // ----- progress -----

  lemma TaskCanStep(cfg: Config, i: nat, stage: Stage, sh: Shared) returns (stage': Stage, sh': Shared)
    requires i < |cfg.alerts| && !stage.Ready?
    ensures TaskStep(cfg, i, stage, sh, stage', sh')
  {
    var alert, key := cfg.alerts[i], cfg.Key(i);
    match stage
    case Taken =>
      stage', sh' := Counted, sh.(counts := sh.counts.(received := sh.counts.received + 1));
    case Counted =>
      sh' := sh;
      stage' := if Get(alert.labels, "alertname") == "" then Ready(false, Result(Empty, Then(Empty, MissingName)))
                else if key == "" then Passed else Clocked(0);
    case Clocked(now) =>
      stage' := if Live(sh.entries, cfg.ttl, key, now) then Duplicate else Passed;
      sh' := sh.(entries := After(sh.entries, cfg.ttl, Call(key, now)));
    case Duplicate =>
      var e := NOTHING.(counter := Deduped, warnings := Then(Empty, DuplicateSkipped(Get(alert.labels, "alertname"))));
      stage', sh' := Ready(true, ResultOf(e)), sh.(counts := sh.counts.Plus(e));
    case Passed =>
      ghost var a: Answers :| true;
      stage', sh' := Settling(PassedEffect(cfg.rules, alert, a, cfg.dryRun)), sh;
    case Settling(e) =>
      stage', sh' := Ready(false, ResultOf(e)), sh.(counts := sh.counts.Plus(e));
  }

  lemma BusyCanStep(cfg: Config, s: State, w: nat) returns (s': State)
    requires ShapeInv(cfg, s) && OnceInv(cfg, s) && s.main.Collecting? && !s.resultsClosed
    requires w < |s.workers| && s.workers[w].Busy?
    ensures Follows(cfg, s, s')
  {
    var i, stage := s.workers[w].i, s.workers[w].stage;
    assert Holds(s, w, i);
    if stage.Ready? {
      s' := s.(workers := s.workers[w := Idle],
               collected := s.collected + [Collected(i, stage.duplicate, stage.result)],
               output := Join(s.output, stage.result));
      assert Next(cfg, s, Send(w), s');
    } else {
      var stage', sh' := TaskCanStep(cfg, i, stage, s.shared);
      s' := s.(workers := s.workers[w := Busy(i, stage')], shared := sh', log := LogAfter(cfg, s, w));
      assert Next(cfg, s, Work(w), s');
    }
  }

  /** No deadlock: until the caller has returned some step can be taken. */
  lemma NeverStuck(cfg: Config, s: State) returns (s': State)
    requires cfg.workers > 0 && ShapeInv(cfg, s) && CountInv(s) && OnceInv(cfg, s) && !s.main.Returned?
    ensures Follows(cfg, s, s')
  {
    var step: Step;
    if s.main.Spawning? && s.main.next < |s.workers| {
      step := Spawn;
      s' := s.(main := Spawning(s.main.next + 1), waitGroup := s.waitGroup + 1,
          workers := s.workers[s.main.next := Idle]);
    } else if s.main.Spawning? {
      step := StartFeeder;
      s' := s.(main := Collecting, feeder := Feeding(0));
    } else if s.resultsClosed {
      step := Return;
      s' := s.(main := Returned);
    } else if w :| 0 <= w < |s.workers| && s.workers[w].Busy? {
      s' := BusyCanStep(cfg, s, w);
      return;
    } else if s.feeder.Feeding? && s.feeder.next < |cfg.alerts| {
      step := Feed(0);
      s' := s.(feeder := Feeding(s.feeder.next + 1), workers := s.workers[0 := Busy(s.feeder.next, Taken)]);
    } else if s.feeder.Feeding? {
      step := CloseJobs;
      s' := s.(feeder := Waiting, jobsClosed := true);
    } else if s.feeder.Closing? {
      step := CloseResults;
      s' := s.(feeder := Finished, resultsClosed := true);
    } else if w :| 0 <= w < |s.workers| && s.workers[w].Idle? {
      step := Exit(w);
      s' := s.(workers := s.workers[w := Exited], waitGroup := s.waitGroup - 1);
    } else {
      SumIsZero(s.workers, Living);
      step := WaitReturns;
      s' := s.(feeder := Closing);
    }
    assert Next(cfg, s, step, s');
  }

  /** A bound on the steps still to come. */
  ghost function Measure(cfg: Config, s: State): nat
    requires Fed(cfg, s) <= |cfg.alerts|
  {
    Sum(s.workers, Weight) + 7 * (|cfg.alerts| - Fed(cfg, s))
    + (match s.feeder case NotStarted => 3 case Feeding(_) => 3 case Waiting => 2 case Closing => 1 case Finished => 0)
    + (match s.main case Spawning(_) => 2 case Collecting => 1 case Returned => 0)
  }

  /** Every step of a task weighs one less. */
  lemma TaskWeighsLess(cfg: Config, i: nat, stage: Stage, sh: Shared, stage': Stage, sh': Shared)
    requires i < |cfg.alerts| && TaskStep(cfg, i, stage, sh, stage', sh')
    ensures Weight(Busy(i, stage')) < Weight(Busy(i, stage))
  {
  }

  lemma WorkWeighsLess(cfg: Config, s: State, w: nat, s': State)
    requires Next(cfg, s, Work(w), s')
    ensures w < |s.workers| == |s'.workers| && Weight(s'.workers[w]) < Weight(s.workers[w])
  {
    var was, now := s.workers[w], s'.workers[w];
    TaskWeighsLess(cfg, was.i, was.stage, s.shared, now.stage, s'.shared);
  }

  lemma StepsCountDown(cfg: Config, s: State, step: Step, s': State)
    requires ShapeInv(cfg, s) && OnceInv(cfg, s) && Next(cfg, s, step, s')
    requires Fed(cfg, s') <= |cfg.alerts|
    ensures Measure(cfg, s') < Measure(cfg, s)
  {
    WorkersStep(cfg, s, step, s', Weight);
    if step.Work? {
      WorkWeighsLess(cfg, s, step.w, s');
    }
  }

  lemma {:induction false} RunCountsDown(cfg: Config, run: seq<State>, k: nat)
    requires IsRun(cfg, run) && k < |run|
    ensures Inv(cfg, run[k]) && Measure(cfg, run[k]) + k <= 2 * cfg.workers + 7 * |cfg.alerts| + 5
  {
    RunKeepsInv(cfg, run, k);
    if k == 0 {
      WeightOfUnborn(run[0].workers);
    } else {
      RunCountsDown(cfg, run, k - 1);
      assert Follows(cfg, run[k - 1], run[k - 1 + 1]);
      var step :| Next(cfg, run[k - 1], step, run[k]);
      StepsCountDown(cfg, run[k - 1], step, run[k]);
    }
  }

  /** Every run ends: it has at most two steps a worker, seven an alert, and five more. */
  lemma RunsEnd(cfg: Config, run: seq<State>)
    requires IsRun(cfg, run)
    ensures |run| - 1 <= 2 * cfg.workers + 7 * |cfg.alerts| + 5
  {
    RunCountsDown(cfg, run, |run| - 1);
  }

  // ----- what Process returns -----

  lemma {:induction false} ConcatItems<T>(a: Trail<T>, b: Trail<T>)
    ensures Items(Concat(a, b)) == Items(a) + Items(b)
  {
    if b.Empty? {
      assert Items(a) + [] == Items(a);
    } else {
      ConcatItems(a, b.before);
      assert Items(a) + Items(b) == Items(a) + Items(b.before) + [b.last];
    }
  }

  /** What each of the results decided, and what it warned of. */
  ghost function DecisionsIn(collected: seq<Collected>): seq<seq<Decision>> {
    seq(|collected|, c requires 0 <= c < |collected| => Items(collected[c].result.decisions))
  }

  ghost function WarningsIn(collected: seq<Collected>): seq<seq<Warning>> {
    seq(|collected|, c requires 0 <= c < |collected| => Items(collected[c].result.warnings))
  }

  lemma {:induction false} JoinedItems(collected: seq<Collected>)
    ensures Items(JoinAll(collected).decisions) == Flatten(DecisionsIn(collected))
    ensures Items(JoinAll(collected).warnings) == Flatten(WarningsIn(collected))
  {
    if collected != [] {
      var front, last := collected[..|collected| - 1], collected[|collected| - 1].result;
      JoinedItems(front);
      ConcatItems(JoinAll(front).decisions, last.decisions);
      ConcatItems(JoinAll(front).warnings, last.warnings);
      assert DecisionsIn(collected)[..|front|] == DecisionsIn(front);
      assert WarningsIn(collected)[..|front|] == WarningsIn(front);
    }
  }

  /** When the caller returns, every alert was handled exactly once; what is returned is the
      decisions of all results and the warnings of all results, one result after the other in
      the order they came in; and each result is what an alert can give, all of it. */
  lemma ProcessReturnsAll(cfg: Config, run: seq<State>)
    requires IsRun(cfg, run) && run[|run| - 1].main.Returned?
    ensures var s := run[|run| - 1];
            && Items(s.output.decisions) == Flatten(DecisionsIn(s.collected))
            && Items(s.output.warnings) == Flatten(WarningsIn(s.collected))
            && (forall i: nat :: WasCollected(s, i) <==> i < |cfg.alerts|)
            && (forall c, d | 0 <= c < d < |s.collected| :: s.collected[c].i != s.collected[d].i)
            && (forall c | 0 <= c < |s.collected| :: IsWhole(cfg, s.collected[c]))
  {
    RunKeepsInv(cfg, run, |run| - 1);
    JoinedItems(run[|run| - 1].collected);
    AllCollected(cfg, run[|run| - 1]);
    CollectedPossible(cfg, run[|run| - 1]);
  }

  /** When the caller returns no worker has an alert in hand. */
  lemma AllCollected(cfg: Config, s: State)
    requires ShapeInv(cfg, s) && OnceInv(cfg, s) && s.main.Returned?
    ensures forall i: nat :: WasCollected(s, i) <==> i < |cfg.alerts|
  {
    forall i: nat
      ensures WasCollected(s, i) <==> i < |cfg.alerts|
    {
      assert forall k :: !Holds(s, k, i);
    }
  }

  /** The decisions and the warnings are those of one effect the alert can have. */
  ghost predicate IsWhole(cfg: Config, c: Collected) {
    c.i < |cfg.alerts| &&
    exists e: Effect | CanHave(cfg, c.i, c.duplicate, e) ::
      c.result.decisions == e.decisions && c.result.warnings == e.warnings
  }

  ghost predicate CanHave(cfg: Config, i: nat, duplicate: bool, e: Effect)
    requires i < |cfg.alerts|
  {
    exists a :: e == AlertEffect(cfg.rules, cfg.alerts[i], duplicate, a, cfg.dryRun)
  }

  lemma CollectedPossible(cfg: Config, s: State)
    requires AgreeInv(cfg, s)
    ensures forall c | 0 <= c < |s.collected| :: IsWhole(cfg, s.collected[c])
  {
    forall c | 0 <= c < |s.collected|
      ensures IsWhole(cfg, s.collected[c])
    {
      var i, duplicate, result := s.collected[c].i, s.collected[c].duplicate, s.collected[c].result;
      assert Agrees(cfg, s.log, i, Ready(duplicate, result));
      ghost var a :| result == ResultOf(AlertEffect(cfg.rules, cfg.alerts[i], duplicate, a, cfg.dryRun));
      assert CanHave(cfg, i, duplicate, AlertEffect(cfg.rules, cfg.alerts[i], duplicate, a, cfg.dryRun));
    }
  }

  ghost predicate GotPast(cfg: Config, s: State, key: string, c: int) {
    0 <= c < |s.collected| && s.collected[c].i < |cfg.alerts| && cfg.Key(s.collected[c].i) == key
        && !s.collected[c].duplicate
  }

  /** However the workers interleave, if all clock readings lie within one ttl of each other
      and the key has no entry still live at any of them, then of the alerts that carry the
      key exactly one gets past deduplication. */
  lemma ExactlyOneGetsPast(cfg: Config, run: seq<State>, key: string, i: nat) returns (c: nat)
    requires IsRun(cfg, run) && run[|run| - 1].main.Returned?
    requires key != "" && i < |cfg.alerts| && cfg.Key(i) == key
    requires var log := run[|run| - 1].log;
             && (forall m, n | 0 <= m < |log| && 0 <= n < |log| :: log[m].call.now - log[n].call.now <= cfg.ttl)
             && (forall m | 0 <= m < |log| :: !Live(cfg.start, cfg.ttl, key, log[m].call.now))
    ensures var s := run[|run| - 1];
            GotPast(cfg, s, key, c) && forall d | GotPast(cfg, s, key, d) :: d == c
  {
    var s := run[|run| - 1];
    RunKeepsInv(cfg, run, |run| - 1);
    AllCollected(cfg, s);
    var m0 := LookedUp(cfg, s, i);
    var m := OneAccepted(cfg.start, cfg.ttl, s.shared.entries, s.log, key, m0);
    c := PassedGotPast(cfg, s, key, m);
    forall d | GotPast(cfg, s, key, d)
      ensures d == c
    {
      var n := PastWasPassed(cfg, s, key, d);
      assert n == m;
    }
  }

  /** The look-up is for the key and was let through. */
  ghost predicate LetThrough(log: seq<Lookup>, n: nat, key: string) {
    n < |log| && log[n].call.key == key && log[n].passed
  }

  /** Of the look-ups with the key, one of them at `m0`, the cache accepted one. */
  lemma OneAccepted(start: Entries, ttl: int, entries: Entries, log: seq<Lookup>, key: string, m0: nat)
    returns (m: nat)
    requires LogRuns(start, ttl, entries, log) && m0 < |log| && log[m0].call.key == key
    requires forall m, n | 0 <= m < |log| && 0 <= n < |log| :: log[m].call.now - log[n].call.now <= ttl
    requires forall m | 0 <= m < |log| :: !Live(start, ttl, key, log[m].call.now)
    ensures forall n: nat :: LetThrough(log, n, key) <==> n == m
  {
    var calls := Calls(log);
    assert calls[m0].key == key;
    ExactlyOnePasses(start, ttl, calls, key);
    m := TheOneThatPasses(start, ttl, calls, key);
    forall n: nat
      ensures LetThrough(log, n, key) <==> Passing(start, ttl, calls, n, key)
    {
    }
  }

  lemma PastWasPassed(cfg: Config, s: State, key: string, d: int) returns (n: nat)
    requires AgreeInv(cfg, s) && LogNamed(cfg, s.log) && key != "" && GotPast(cfg, s, key, d)
    ensures LetThrough(s.log, n, key) && s.log[n].i == s.collected[d].i
  {
    CollectedVerdict(cfg, s, d);
    n :| 0 <= n < |s.log| && s.log[n].i == s.collected[d].i && s.log[n].passed == true;
  }

  /** What was collected tells the cache's verdict. */
  lemma CollectedVerdict(cfg: Config, s: State, c: nat)
    requires AgreeInv(cfg, s) && c < |s.collected|
    ensures s.collected[c].i < |cfg.alerts|
    ensures cfg.Key(s.collected[c].i) != "" ==> LogSays(s.log, s.collected[c].i, !s.collected[c].duplicate)
  {
    assert Agrees(cfg, s.log, s.collected[c].i, Ready(s.collected[c].duplicate, s.collected[c].result));
  }

  lemma PassedGotPast(cfg: Config, s: State, key: string, m: nat) returns (c: nat)
    requires AgreeInv(cfg, s) && LogNamed(cfg, s.log) && (forall i: nat | i < |cfg.alerts| :: WasCollected(s, i))
    requires key != "" && LetThrough(s.log, m, key)
    ensures GotPast(cfg, s, key, c) && s.collected[c].i == s.log[m].i
  {
    c := CollectedAt(s, s.log[m].i);
    CollectedVerdict(cfg, s, c);
    VerdictIsUnique(s.log, m, !s.collected[c].duplicate);
  }

  lemma CollectedAt(s: State, i: nat) returns (c: nat)
    requires WasCollected(s, i)
    ensures c < |s.collected| && s.collected[c].i == i
  {
    c :| 0 <= c < |s.collected| && s.collected[c].i == i;
  }

  lemma VerdictIsUnique(log: seq<Lookup>, m: nat, passed: bool)
    requires m < |log| && LogSays(log, log[m].i, passed)
    requires forall m, n | 0 <= m < n < |log| :: log[m].i != log[n].i
    ensures log[m].passed == passed
  {
    var n :| 0 <= n < |log| && log[n].i == log[m].i && log[n].passed == passed;
    assert n == m;
  }

  /** At the end every alert with a key has been looked up. */
  lemma LookedUp(cfg: Config, s: State, i: nat) returns (m: nat)
    requires AgreeInv(cfg, s) && WasCollected(s, i) && i < |cfg.alerts| && cfg.Key(i) != ""
    ensures m < |s.log| && s.log[m].i == i
  {
    var c :| 0 <= c < |s.collected| && s.collected[c].i == i;
    assert Agrees(cfg, s.log, i, Ready(s.collected[c].duplicate, s.collected[c].result));
    m :| 0 <= m < |s.log| && s.log[m].i == i;
  }
}
