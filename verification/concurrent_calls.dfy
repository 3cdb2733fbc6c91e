/** Any number of Process calls at a time, on one cache: which alerts get past deduplication. */
module ConcurrentCalls {
  import opened AlertPool
  import opened FingerprintCaching
  import opened IntakeCounters

  /** A look-up, with the number of the call it was made for. */
  datatype Answer = Answer(p: nat, at: Lookup)

  /** A system of calls, with all look-ups of all of them in the order they took the lock. */
  datatype Logged = Logged(system: System, log: seq<Answer>)

  function Lookups(log: seq<Answer>): seq<Lookup> {
    seq(|log|, m requires 0 <= m < |log| => log[m].at)
  }

  function Tagged(p: nat, log: seq<Lookup>): seq<Answer> {
    seq(|log|, m requires 0 <= m < |log| => Answer(p, log[m]))
  }

  ghost predicate LoggedInit(cfgs: seq<Config>, s: Logged) {
    && Coherent(s.system) && |s.system.pools| == |cfgs| && s.log == []
    && forall p | 0 <= p < |cfgs| :: Init(cfgs[p], s.system.pools[p])
  }

  ghost predicate LoggedNext(cfgs: seq<Config>, s: Logged, step: SystemStep, s': Logged) {
    && SystemNext(cfgs, s.system, step, s'.system)
    && s'.log == if step.OfPool?
                 then s.log + Tagged(step.p, Added(s.system.pools[step.p], s'.system.pools[step.p]))
                 else s.log
  }

  ghost predicate LoggedFollows(cfgs: seq<Config>, s: Logged, s': Logged) {
    exists step :: LoggedNext(cfgs, s, step, s')
  }

  /** A run of all the calls, with resets of the counters at any time. */
  ghost predicate IsLoggedRun(cfgs: seq<Config>, run: seq<Logged>) {
    && run != [] && LoggedInit(cfgs, run[0])
    && forall k | 0 <= k < |run| - 1 :: LoggedFollows(cfgs, run[k], run[k + 1])
  }

  // ----- what every state keeps -----

  /** The log of all holds each call's own look-ups and no others. */
  ghost predicate Gathers(pools: seq<State>, log: seq<Answer>) {
    forall p: nat, at :: Answer(p, at) in log <==> p < |pools| && at in pools[p].log
  }

  ghost predicate PoolsInv(cfgs: seq<Config>, pools: seq<State>) {
    |pools| == |cfgs| && forall p | 0 <= p < |cfgs| :: PoolInv(cfgs[p], pools[p])
  }

  /** Each call keeps what it would keep alone, and together they are one run of the cache. */
  ghost predicate LoggedInv(cfgs: seq<Config>, start: Entries, ttl: int, s: Logged) {
    && Coherent(s.system) && PoolsInv(cfgs, s.system.pools) && Gathers(s.system.pools, s.log)
    && LogRuns(start, ttl, s.system.shared.entries, Lookups(s.log))
  }

  lemma SharedAside(cfg: Config, s: State, shared: Shared)
    requires PoolInv(cfg, s)
    ensures PoolInv(cfg, s.(shared := shared))
  {
    var s' := s.(shared := shared);
    OnceSame(cfg, s, s');
  }

  lemma PoolsStep(cfgs: seq<Config>, s: System, step: SystemStep, s': System)
    requires Coherent(s) && PoolsInv(cfgs, s.pools) && SystemNext(cfgs, s, step, s')
    ensures PoolsInv(cfgs, s'.pools)
  {
    forall p | 0 <= p < |cfgs|
      ensures PoolInv(cfgs[p], s'.pools[p])
    {
      if step.OfPool? && step.p == p {
        PoolStep(cfgs[p], s.pools[p], step.step, s'.pools[p]);
      } else {
        SharedAside(cfgs[p], s.pools[p], s'.shared);
      }
    }
  }

  lemma GathersStep(pools: seq<State>, pools': seq<State>, log: seq<Answer>, p: nat, added: seq<Lookup>)
    requires Gathers(pools, log) && p < |pools| == |pools'|
    requires pools'[p].log == pools[p].log + added
    requires forall q | 0 <= q < |pools| && q != p :: pools'[q].log == pools[q].log
    ensures Gathers(pools', log + Tagged(p, added))
  {
    forall q: nat, at
      ensures Answer(q, at) in Tagged(p, added) <==> q == p && at in added
    {
      if at in added {
        var m :| 0 <= m < |added| && added[m] == at;
        assert Tagged(p, added)[m] == Answer(p, at);
      }
    }
  }

  lemma GathersNext(cfgs: seq<Config>, s: Logged, step: SystemStep, s': Logged)
    requires Gathers(s.system.pools, s.log) && LoggedNext(cfgs, s, step, s')
    requires step.OfPool? ==> var p := step.p;
             s'.system.pools[p].log == s.system.pools[p].log + Added(s.system.pools[p], s'.system.pools[p])
    ensures Gathers(s'.system.pools, s'.log)
  {
    var pools, pools' := s.system.pools, s'.system.pools;
    if step.OfPool? {
      GathersStep(pools, pools', s.log, step.p, Added(pools[step.p], pools'[step.p]));
    } else {
      assert forall q | 0 <= q < |pools| :: pools'[q].log == pools[q].log;
    }
  }

  lemma RunsNext(cfgs: seq<Config>, start: Entries, ttl: int, s: Logged, p: nat, step: Step, s': Logged)
    requires Coherent(s.system) && LogRuns(start, ttl, s.system.shared.entries, Lookups(s.log))
    requires LoggedNext(cfgs, s, OfPool(p, step), s') && cfgs[p].ttl == ttl
    ensures LogRuns(start, ttl, s'.system.shared.entries, Lookups(s'.log))
    ensures s'.system.pools[p].log == s.system.pools[p].log + Added(s.system.pools[p], s'.system.pools[p])
  {
    var pool, pool' := s.system.pools[p], s'.system.pools[p];
    LogStep(cfgs[p], pool, step, pool', start, Lookups(s.log));
    assert Lookups(s'.log) == Lookups(s.log) + Added(pool, pool');
  }

  lemma LoggedStep(cfgs: seq<Config>, start: Entries, ttl: int, s: Logged, step: SystemStep, s': Logged)
    requires LoggedInv(cfgs, start, ttl, s) && LoggedNext(cfgs, s, step, s')
    requires forall p | 0 <= p < |cfgs| :: cfgs[p].ttl == ttl
    ensures LoggedInv(cfgs, start, ttl, s')
  {
    SystemStepIsEvent(cfgs, s.system, step, s'.system);
    PoolsStep(cfgs, s.system, step, s'.system);
    if step.OfPool? {
      RunsNext(cfgs, start, ttl, s, step.p, step.step, s');
    }
    GathersNext(cfgs, s, step, s');
  }

  lemma LoggedStart(cfgs: seq<Config>, ttl: int, s: Logged)
    requires LoggedInit(cfgs, s)
    ensures LoggedInv(cfgs, s.system.shared.entries, ttl, s)
  {
    forall p | 0 <= p < |cfgs|
      ensures PoolInv(cfgs[p], s.system.pools[p])
    {
      ShapeInit(cfgs[p], s.system.pools[p]);
    }
    assert Calls(Lookups([])) == [];
  }

  lemma {:induction false} LoggedRunKeeps(cfgs: seq<Config>, ttl: int, run: seq<Logged>, k: nat)
    requires IsLoggedRun(cfgs, run) && k < |run| && forall p | 0 <= p < |cfgs| :: cfgs[p].ttl == ttl
    ensures LoggedInv(cfgs, run[0].system.shared.entries, ttl, run[k])
  {
    if k == 0 {
      LoggedStart(cfgs, ttl, run[0]);
    } else {
      LoggedRunKeeps(cfgs, ttl, run, k - 1);
      assert LoggedFollows(cfgs, run[k - 1], run[k - 1 + 1]);
      var step :| LoggedNext(cfgs, run[k - 1], step, run[k]);
      LoggedStep(cfgs, run[0].system.shared.entries, ttl, run[k - 1], step, run[k]);
    }
  }

  // ----- one alert among all calls -----

  lemma IndexOfAnswer(pools: seq<State>, log: seq<Answer>, p: nat, n: nat) returns (m: nat)
    requires Gathers(pools, log) && p < |pools| && n < |pools[p].log|
    ensures m < |log| && log[m] == Answer(p, pools[p].log[n])
  {
    assert Answer(p, pools[p].log[n]) in log;
    m :| 0 <= m < |log| && log[m] == Answer(p, pools[p].log[n]);
  }

  lemma AnswerOfIndex(pools: seq<State>, log: seq<Answer>, m: nat) returns (n: nat)
    requires Gathers(pools, log) && m < |log|
    ensures log[m].p < |pools| && n < |pools[log[m].p].log| && pools[log[m].p].log[n] == log[m].at
  {
    assert Answer(log[m].p, log[m].at) in log;
    n :| 0 <= n < |pools[log[m].p].log| && pools[log[m].p].log[n] == log[m].at;
  }

  /** Alert `c` of those call `p` has collected got past with the key. */
  ghost predicate GotPastIn(cfgs: seq<Config>, pools: seq<State>, key: string, p: nat, c: int) {
    p < |pools| == |cfgs| && GotPast(cfgs[p], pools[p], key, c)
  }

  ghost predicate AllReturned(pools: seq<State>) {
    forall p | 0 <= p < |pools| :: pools[p].main.Returned?
  }

  lemma PastIsLogged(cfgs: seq<Config>, pools: seq<State>, log: seq<Answer>, key: string, p: nat, c: int)
    returns (m: nat)
    requires PoolsInv(cfgs, pools) && Gathers(pools, log) && key != "" && GotPastIn(cfgs, pools, key, p, c)
    ensures LetThrough(Lookups(log), m, key) && log[m].p == p && log[m].at.i == pools[p].collected[c].i
  {
    var n := PastWasPassed(cfgs[p], pools[p], key, c);
    m := IndexOfAnswer(pools, log, p, n);
  }

  lemma LoggedGotPast(cfgs: seq<Config>, pools: seq<State>, log: seq<Answer>, key: string, m: nat)
    returns (p: nat, c: nat)
    requires PoolsInv(cfgs, pools) && Gathers(pools, log) && key != "" && LetThrough(Lookups(log), m, key)
    requires AllReturned(pools)
    ensures GotPastIn(cfgs, pools, key, p, c) && log[m].p == p && log[m].at.i == pools[p].collected[c].i
  {
    var n := AnswerOfIndex(pools, log, m);
    p := log[m].p;
    AllCollected(cfgs[p], pools[p]);
    c := PassedGotPast(cfgs[p], pools[p], key, n);
  }

  lemma OnlyOnePast(cfgs: seq<Config>, pools: seq<State>, log: seq<Answer>, key: string, m: nat)
    returns (p: nat, c: nat)
    requires PoolsInv(cfgs, pools) && Gathers(pools, log) && key != "" && AllReturned(pools)
    requires forall n: nat :: LetThrough(Lookups(log), n, key) <==> n == m
    ensures GotPastIn(cfgs, pools, key, p, c)
    ensures forall p': nat, c' | GotPastIn(cfgs, pools, key, p', c') :: p' == p && c' == c
  {
    p, c := LoggedGotPast(cfgs, pools, log, key, m);
    forall p': nat, c' | GotPastIn(cfgs, pools, key, p', c')
      ensures p' == p && c' == c
    {
      var m' := PastIsLogged(cfgs, pools, log, key, p', c');
      assert m' == m;
    }
  }

  /** Whatever calls run at the same time and however their workers and any resets interleave:
      if all clock readings lie within one ttl of each other and the key has no entry still
      live at any of them, then of the alerts of all calls that carry the key exactly one
      gets past deduplication. */
  lemma ExactlyOneOfAll(cfgs: seq<Config>, ttl: int, run: seq<Logged>, key: string, q: nat, i: nat)
    returns (p: nat, c: nat)
    requires IsLoggedRun(cfgs, run) && forall p | 0 <= p < |cfgs| :: cfgs[p].ttl == ttl
    requires AllReturned(run[|run| - 1].system.pools)
    requires key != "" && q < |cfgs| && i < |cfgs[q].alerts| && cfgs[q].Key(i) == key
    requires var log := Lookups(run[|run| - 1].log);
             && (forall m, n | 0 <= m < |log| && 0 <= n < |log| :: log[m].call.now - log[n].call.now <= ttl)
             && (forall m | 0 <= m < |log| :: !Live(run[0].system.shared.entries, ttl, key, log[m].call.now))
    ensures var pools := run[|run| - 1].system.pools;
            && GotPastIn(cfgs, pools, key, p, c)
            && forall p': nat, c' | GotPastIn(cfgs, pools, key, p', c') :: p' == p && c' == c
  {
    var start, s := run[0].system.shared.entries, run[|run| - 1];
    var pools := s.system.pools;
    LoggedRunKeeps(cfgs, ttl, run, |run| - 1);
    AllCollected(cfgs[q], pools[q]);
    var n := LookedUp(cfgs[q], pools[q], i);
    var m0 := IndexOfAnswer(pools, s.log, q, n);
    var m := OneAccepted(start, ttl, s.system.shared.entries, Lookups(s.log), key, m0);
    p, c := OnlyOnePast(cfgs, pools, s.log, key, m);
  }
}
