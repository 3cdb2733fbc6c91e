/** The counters of alerts received, deduplicated, created and suggested, under any
    number of concurrent Process calls and of resets, which may overlap. */
module IntakeCounters {
  import opened AlertEffects
  import opened Collections
  import opened AlertProcessing
  import opened AlertPool

  /** The counters; how many alerts are counted as received and not yet finished; and of
      each reset how many of its four stores it has made: of the one begun last, and of
      those begun before it that were still under way when the next began. */
  datatype Intake = Intake(
    received: nat, deduped: nat, created: nat, suggested: nat,
    inFlight: nat, latest: nat, older: seq<nat>)

  datatype Event =
    | Receive
    | Finish(counter: Counter)   // adds to at most one more counter
    | Begin                      // a reset stores zero into received
    | StoreLatest                // the reset begun last stores zero into its next counter
    | StoreOlder(k: nat)         // an earlier reset does

  ghost predicate Enabled(s: Intake, e: Event) {
    match e
    case Receive => true
    case Finish(_) => s.inFlight > 0
    case Begin => true
    case StoreLatest => s.latest < 4
    case StoreOlder(k) => k < |s.older| && s.older[k] < 4
  }

  /** The n-th store of a reset, where the first is into received. */
  function Cleared(s: Intake, n: nat): Intake {
    if n == 1 then s.(deduped := 0) else if n == 2 then s.(created := 0) else if n == 3 then s.(suggested := 0) else s
  }

  ghost function After(s: Intake, e: Event): Intake
    requires Enabled(s, e)
  {
    match e
    case Receive => s.(received := s.received + 1, inFlight := s.inFlight + 1)
    case Finish(counter) =>
      s.(inFlight := s.inFlight - 1,
         deduped := s.deduped + One(counter == Deduped),
         created := s.created + One(counter == Created),
         suggested := s.suggested + One(counter == Suggested))
    case Begin => s.(received := 0, latest := 1, older := if s.latest < 4 then s.older + [s.latest] else s.older)
    case StoreLatest => Cleared(s, s.latest).(latest := s.latest + 1)
    case StoreOlder(k) => Cleared(s, s.older[k]).(older := s.older[k := s.older[k] + 1])
  }

  ghost predicate Legal(s: Intake, events: seq<Event>)
    decreases events
  {
    events == [] || (Enabled(s, events[0]) && Legal(After(s, events[0]), events[1..]))
  }

  ghost function Run(s: Intake, events: seq<Event>): Intake
    requires Legal(s, events)
    decreases events
  {
    if events == [] then s else Run(After(s, events[0]), events[1..])
  }

  /** No more alerts counted as settled than as received, once the last reset is done. */
  ghost predicate Bounded(s: Intake) {
    s.latest == 4 ==> s.deduped + s.created + s.suggested <= s.received
  }

  /** The settled counters that count since the last reset began: those it has stored already. */
  ghost function Tally(s: Intake): nat {
    (if s.latest >= 2 then s.deduped else 0) + (if s.latest >= 3 then s.created else 0)
    + (if s.latest >= 4 then s.suggested else 0)
  }

  ghost predicate Balanced(s: Intake) {
    1 <= s.latest <= 4 && Tally(s) + s.inFlight <= s.received
  }

  /** Every reset in the run begins while no alert is in flight. */
  ghost predicate QuietResets(s: Intake, events: seq<Event>)
    requires Legal(s, events)
    decreases events
  {
    events == [] || ((events[0].Begin? ==> s.inFlight == 0) && QuietResets(After(s, events[0]), events[1..]))
  }

  lemma BalancedStep(s: Intake, e: Event)
    requires Balanced(s) && Enabled(s, e) && (e.Begin? ==> s.inFlight == 0)
    ensures Balanced(After(s, e))
  {
  }

  /** If resets begin only while no alert is in flight, then in every interleaving, resets
      overlapping or not, deduped, created and suggested together never exceed received. */
  lemma {:induction false} SettledAtMostReceived(s: Intake, events: seq<Event>)
    requires Balanced(s) && Legal(s, events) && QuietResets(s, events)
    ensures Balanced(Run(s, events)) && Bounded(Run(s, events))
    decreases events
  {
    if events != [] {
      BalancedStep(s, events[0]);
      SettledAtMostReceived(After(s, events[0]), events[1..]);
    }
  }

  /** `events` begins a reset; what follows it begins none while an alert is in flight. */
  ghost predicate ResetRun(s: Intake, events: seq<Event>) {
    && events != [] && events[0].Begin? && Legal(s, events)
    && QuietResets(After(s, events[0]), events[1..])
  }

  /** A reset keeps the counters meaningful in every continuation exactly when it begins
      while no alert is in flight: one that was counted before the reset and settles after it
      is counted on one side only. */
  lemma ResetSafeExactlyWhenQuiet(s: Intake)
    requires Balanced(s)
    ensures s.inFlight == 0 <==> forall events | ResetRun(s, events) :: Bounded(Run(s, events))
  {
    if s.inFlight == 0 {
      forall events | ResetRun(s, events)
        ensures Bounded(Run(s, events))
      {
        SettledAtMostReceived(s, events);
      }
    } else {
      LateAlert(s, [Begin, StoreLatest, StoreLatest, StoreLatest, Finish(Deduped)]);
    }
  }

  lemma LateAlert(s: Intake, events: seq<Event>)
    requires s.inFlight > 0 && events == [Begin, StoreLatest, StoreLatest, StoreLatest, Finish(Deduped)]
    ensures ResetRun(s, events) && !Bounded(Run(s, events))
  {
    var s1 := After(s, Begin);
    var s2 := After(s1, StoreLatest);
    var s3 := After(s2, StoreLatest);
    var s4 := After(s3, StoreLatest);
    var s5 := After(s4, Finish(Deduped));
    assert events[1..] == [StoreLatest, StoreLatest, StoreLatest, Finish(Deduped)];
    assert events[1..][1..] == [StoreLatest, StoreLatest, Finish(Deduped)];
    assert events[1..][1..][1..] == [StoreLatest, Finish(Deduped)];
    assert events[1..][1..][1..][1..] == [Finish(Deduped)];
    assert events[1..][1..][1..][1..][1..] == [];
    var e4 := events[1..][1..][1..][1..];
    assert Legal(s4, e4) && QuietResets(s4, e4) && Run(s4, e4) == s5;
    var e3 := events[1..][1..][1..];
    assert Legal(s3, e3) && QuietResets(s3, e3) && Run(s3, e3) == s5;
    var e2 := events[1..][1..];
    assert Legal(s2, e2) && QuietResets(s2, e2) && Run(s2, e2) == s5;
    assert Legal(s1, events[1..]) && QuietResets(s1, events[1..]) && Run(s1, events[1..]) == s5;
    assert s5.deduped == 1 && s5.received == 0 && s5.latest == 4;
  }

  // ----- processAlert takes these steps -----

  predicate InFlight(w: Worker) {
    w.Busy? && !w.stage.Taken? && !w.stage.Ready?
  }

  function Flying(w: Worker): nat {
    One(InFlight(w))
  }

  function FlightCount(workers: seq<Worker>): nat {
    Sum(workers, Flying)
  }

  /** The counters and the alerts in flight, with how far the resets have got. */
  ghost function Shown(counts: Counts, inFlight: nat, latest: nat, older: seq<nat>): Intake {
    Intake(counts.received, counts.deduped, counts.created, counts.suggested, inFlight, latest, older)
  }

  /** `s'` comes from `s` by an alert being received or finished, or by nothing of the kind. */
  ghost predicate AlertEvent(s: Intake, s': Intake) {
    || s' == s
    || s' == After(s, Receive)
    || (s.inFlight > 0 && exists counter :: s' == After(s, Finish(counter)))
  }

  /** Each atomic step of processAlert leaves the counters alone, receives an alert, or
      finishes one with at most one more counter. */
  lemma TaskStepIsEvent(cfg: Config, i: nat, stage: Stage, sh: Shared, stage': Stage, sh': Shared, others: nat,
      latest: nat, older: seq<nat>)
    requires i < |cfg.alerts| && TaskStep(cfg, i, stage, sh, stage', sh')
    ensures AlertEvent(Shown(sh.counts, others + One(InFlight(Busy(i, stage))), latest, older),
                       Shown(sh'.counts, others + One(InFlight(Busy(i, stage'))), latest, older))
  {
    var s := Shown(sh.counts, others + One(InFlight(Busy(i, stage))), latest, older);
    var s' := Shown(sh'.counts, others + One(InFlight(Busy(i, stage'))), latest, older);
    match stage
    case Taken => assert s' == After(s, Receive);
    case Counted => assert s' == if stage'.Ready? then After(s, Finish(NoCounter)) else s;
    case Clocked(_) => assert s' == s;
    case Passed => assert s' == s;
    case Duplicate => assert s' == After(s, Finish(Deduped));
    case Settling(e) => assert s' == After(s, Finish(e.counter));
    case Ready(_, _) => assert false;
  }

  /** So does each step of a pool, whatever alerts are in flight in others. */
  lemma PoolStepIsEvent(cfg: Config, s: State, step: Step, s': State, others: nat, latest: nat, older: seq<nat>)
    requires Next(cfg, s, step, s')
    ensures AlertEvent(Shown(s.shared.counts, others + FlightCount(s.workers), latest, older),
                       Shown(s'.shared.counts, others + FlightCount(s'.workers), latest, older))
  {
    var before := Shown(s.shared.counts, others + FlightCount(s.workers), latest, older);
    var after := Shown(s'.shared.counts, others + FlightCount(s'.workers), latest, older);
    WorkersStep(cfg, s, step, s', Flying);
    if step.Work? {
      WorkIsEvent(cfg, s, step.w, s', others, latest, older);
    } else {
      assert after == before || (before.inFlight > 0 && after == After(before, Finish(NoCounter)));
    }
  }

  lemma WorkIsEvent(cfg: Config, s: State, w: nat, s': State, others: nat, latest: nat, older: seq<nat>)
    requires Next(cfg, s, Work(w), s')
    ensures AlertEvent(Shown(s.shared.counts, others + FlightCount(s.workers), latest, older),
                       Shown(s'.shared.counts, others + FlightCount(s'.workers), latest, older))
  {
    var was, now := s.workers[w], s'.workers[w];
    WorkersStep(cfg, s, Work(w), s', Flying);
    SumAfterUpdate(s.workers, Flying, w, Idle);
    TaskStepIsEvent(cfg, was.i, was.stage, s.shared, now.stage, s'.shared,
                    others + FlightCount(s.workers) - One(InFlight(was)), latest, older);
  }

  // ----- many pools and resets -----

  /** Any number of Process calls, begun or not, on one set of counters and one cache. */
  datatype System = System(pools: seq<State>, shared: Shared, latest: nat, older: seq<nat>)

  datatype SystemStep = OfPool(p: nat, step: Step) | ResetBegins | LatestStores | OlderStores(k: nat)

  /** Every pool sees the same counters and the same cache. */
  ghost predicate Coherent(s: System) {
    forall p | 0 <= p < |s.pools| :: s.pools[p].shared == s.shared
  }

  ghost predicate SystemNext(cfgs: seq<Config>, s: System, step: SystemStep, s': System) {
    && |s.pools| == |s'.pools| == |cfgs|
    && match step
       case OfPool(p, poolStep) =>
         && p < |s.pools| && Next(cfgs[p], s.pools[p], poolStep, s'.pools[p])
         && s'.shared == s'.pools[p].shared && s'.latest == s.latest && s'.older == s.older
         && forall q | 0 <= q < |s.pools| && q != p :: s'.pools[q] == s.pools[q].(shared := s'.shared)
       case ResetBegins =>
         OthersKept(s, s') && ShownBy(s') == After(ShownBy(s), Begin)
       case LatestStores =>
         OthersKept(s, s') && s.latest < 4 && ShownBy(s') == After(ShownBy(s), StoreLatest)
       case OlderStores(k) =>
         OthersKept(s, s') && k < |s.older| && s.older[k] < 4 && ShownBy(s') == After(ShownBy(s), StoreOlder(k))
  }

  /** A store of a reset changes nothing but the counters. */
  ghost predicate OthersKept(s: System, s': System) {
    && |s.pools| == |s'.pools| && s'.shared.entries == s.shared.entries
    && forall q | 0 <= q < |s.pools| :: s'.pools[q] == s.pools[q].(shared := s'.shared)
  }

  function FlightsOf(pool: State): nat {
    FlightCount(pool.workers)
  }

  function Flights(pools: seq<State>): nat {
    Sum(pools, FlightsOf)
  }

  ghost function ShownBy(s: System): Intake {
    Shown(s.shared.counts, Flights(s.pools), s.latest, s.older)
  }

  /** A step of any pool is an event of the intake, and a step of a reset one of its own. */
  lemma SystemStepIsEvent(cfgs: seq<Config>, s: System, step: SystemStep, s': System)
    requires Coherent(s) && SystemNext(cfgs, s, step, s')
    ensures Coherent(s')
    ensures step.OfPool? ==> AlertEvent(ShownBy(s), ShownBy(s'))
  {
    if step.OfPool? {
      var p := step.p;
      SumDiffers(s.pools, s'.pools, FlightsOf, p);
      var others := Flights(s.pools) - FlightCount(s.pools[p].workers);
      PoolStepIsEvent(cfgs[p], s.pools[p], step.step, s'.pools[p], others, s.latest, s.older);
    }
  }

  /** A run of the system in which resets begin only while no alert is in flight in any pool. */
  ghost predicate IsQuietRun(cfgs: seq<Config>, run: seq<System>) {
    && run != [] && Coherent(run[0]) && Balanced(ShownBy(run[0]))
    && forall k | 0 <= k < |run| - 1 :: QuietStep(cfgs, run[k], run[k + 1])
  }

  ghost predicate QuietStep(cfgs: seq<Config>, s: System, s': System) {
    exists step :: SystemNext(cfgs, s, step, s') && (step.ResetBegins? ==> Flights(s.pools) == 0)
  }

  lemma AlertEventBalanced(s: Intake, s': Intake)
    requires Balanced(s) && AlertEvent(s, s')
    ensures Balanced(s')
  {
    if s' != s && s' != After(s, Receive) {
      var counter :| s' == After(s, Finish(counter));
      BalancedStep(s, Finish(counter));
    }
  }

  lemma QuietStepBalanced(cfgs: seq<Config>, s: System, s': System)
    requires Coherent(s) && Balanced(ShownBy(s)) && QuietStep(cfgs, s, s')
    ensures Coherent(s') && Balanced(ShownBy(s'))
  {
    var step :| SystemNext(cfgs, s, step, s') && (step.ResetBegins? ==> Flights(s.pools) == 0);
    SystemStepIsEvent(cfgs, s, step, s');
    match step
    case OfPool(_, _) => AlertEventBalanced(ShownBy(s), ShownBy(s'));
    case ResetBegins => BalancedStep(ShownBy(s), Begin);
    case LatestStores => BalancedStep(ShownBy(s), StoreLatest);
    case OlderStores(k) => BalancedStep(ShownBy(s), StoreOlder(k));
  }

  /** In every state of every such run, whatever the pools do and however the resets overlap,
      the alerts settled since the last reset and those in flight are among those received. */
  lemma {:induction false} SystemCountersBounded(cfgs: seq<Config>, run: seq<System>, k: nat)
    requires IsQuietRun(cfgs, run) && k < |run|
    ensures Coherent(run[k]) && Balanced(ShownBy(run[k])) && Bounded(ShownBy(run[k]))
  {
    if k > 0 {
      SystemCountersBounded(cfgs, run, k - 1);
      assert QuietStep(cfgs, run[k - 1], run[k - 1 + 1]);
      QuietStepBalanced(cfgs, run[k - 1], run[k]);
    }
  }
}
