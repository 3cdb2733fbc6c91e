/** The token bucket in front of the webhook. It admits a request exactly when no
    time window would then hold more than `burst + rate * length` requests.

    Times are seconds on Go's monotonic clock, as real numbers. */
module RateLimiting {

  /** The tokens that `rate` a second yield in `elapsed` seconds. */
  ghost function Yield(rate: nat, elapsed: real): real {
    if rate == 0 then 0.0 else Yield(rate - 1, elapsed) + elapsed
  }

  lemma {:induction false} YieldIsProduct(rate: nat, elapsed: real)
    ensures Yield(rate, elapsed) == rate as real * elapsed
  {
    if rate > 0 {
      YieldIsProduct(rate - 1, elapsed);
      OneMore((rate - 1) as real, elapsed);
      assert (rate - 1) as real + 1.0 == rate as real;
    }
  }

  lemma OneMore(a: real, b: real)
    ensures (a + 1.0) * b == a * b + b
  {
  }

  lemma {:induction false} YieldAdds(rate: nat, a: real, b: real)
    ensures Yield(rate, a + b) == Yield(rate, a) + Yield(rate, b)
  {
    if rate > 0 {
      YieldAdds(rate - 1, a, b);
    }
  }

  lemma {:induction false} YieldMonotone(rate: nat, a: real, b: real)
    requires a <= b
    ensures Yield(rate, a) <= Yield(rate, b)
    ensures Yield(rate, 0.0) == 0.0
  {
    if rate > 0 {
      YieldMonotone(rate - 1, a, b);
    }
  }

  /** How many of the `admitted` requests arrived at or after `from`. */
  ghost function CountSince(admitted: seq<real>, from: real): nat {
    if admitted == [] then 0
    else CountSince(admitted[..|admitted| - 1], from) + if admitted[|admitted| - 1] >= from then 1 else 0
  }

  /** How many of them arrived within `[from, to]`. */
  ghost function CountWithin(admitted: seq<real>, from: real, to: real): nat {
    if admitted == [] then 0
    else CountWithin(admitted[..|admitted| - 1], from, to) + if from <= admitted[|admitted| - 1] <= to then 1 else 0
  }

  /** Admitting one more request now would overfill the window that starts at `from`. */
  ghost predicate Overfills(rate: nat, burst: nat, admitted: seq<real>, from: real, now: real) {
    (CountSince(admitted, from) + 1) as real > burst as real + Yield(rate, now - from)
  }

  /** Some window ending now has no room for one more request. */
  ghost predicate Full(rate: nat, burst: nat, admitted: seq<real>, now: real) {
    exists from | from <= now :: Overfills(rate, burst, admitted, from, now)
  }

  /** The requests let through by a limiter that refuses exactly those which find it full. */
  ghost function Admitted(rate: nat, burst: nat, requests: seq<real>): seq<real> {
    if requests == [] then []
    else
      var earlier, now := Admitted(rate, burst, requests[..|requests| - 1]), requests[|requests| - 1];
      if Full(rate, burst, earlier, now) then earlier else earlier + [now]
  }

  // ----- every window of any run -----

  lemma {:induction false} WithinAtMostSince(admitted: seq<real>, from: real, to: real)
    ensures CountWithin(admitted, from, to) <= CountSince(admitted, from)
  {
    if admitted != [] {
      WithinAtMostSince(admitted[..|admitted| - 1], from, to);
    }
  }

  lemma {:induction false} WindowBounded(rate: nat, burst: nat, requests: seq<real>, from: real, to: real)
    requires from <= to
    ensures CountWithin(Admitted(rate, burst, requests), from, to) as real <= burst as real + Yield(rate, to - from)
  {
    YieldMonotone(rate, 0.0, to - from);
    if requests != [] {
      var earlier, now := requests[..|requests| - 1], requests[|requests| - 1];
      WindowBounded(rate, burst, earlier, from, to);
      var admitted := Admitted(rate, burst, earlier);
      assert (admitted + [now])[..|admitted|] == admitted;
      if !Full(rate, burst, admitted, now) && from <= now <= to {
        assert !Overfills(rate, burst, admitted, from, now);
        WithinAtMostSince(admitted, from, to);
        YieldMonotone(rate, now - from, to - from);
      }
    }
  }

  /** Whatever the requests, every window admits at most `burst + rate * length` of them. */
  lemma EveryWindowBounded(rate: nat, burst: nat, requests: seq<real>, from: real, length: real)
    requires length >= 0.0
    ensures CountWithin(Admitted(rate, burst, requests), from, from + length) as real
         <= burst as real + rate as real * length
  {
    WindowBounded(rate, burst, requests, from, from + length);
    assert from + length - from == length;
    YieldIsProduct(rate, length);
  }

  // ----- what the bucket's level means -----

  ghost predicate NonDecreasing(times: seq<real>) {
    forall i, j | 0 <= i < j < |times| :: times[i] <= times[j]
  }

  /** The room left at `now` by the window that starts at the j-th admitted request. */
  ghost function Room(rate: nat, burst: nat, admitted: seq<real>, j: nat, now: real): real
    requires j < |admitted|
  {
    (burst - (|admitted| - j)) as real + Yield(rate, now - admitted[j])
  }

  /** `tokens` is the least room left by any window, and `burst` when all windows leave that much. */
  ghost predicate Meters(rate: nat, burst: nat, tokens: real, last: real, admitted: seq<real>) {
    && NonDecreasing(admitted)
    && (forall j | 0 <= j < |admitted| :: admitted[j] <= last)
    && tokens <= burst as real
    && (forall j | 0 <= j < |admitted| :: tokens <= Room(rate, burst, admitted, j, last))
    && (tokens == burst as real || exists j | 0 <= j < |admitted| :: tokens == Room(rate, burst, admitted, j, last))
  }

  lemma RefillMeters(rate: nat, burst: nat, tokens: real, last: real, admitted: seq<real>, now: real, filled: real)
    requires last <= now && Meters(rate, burst, tokens, last, admitted)
    requires filled == tokens + Yield(rate, now - last)
    ensures Meters(rate, burst, if filled > burst as real then burst as real else filled, now, admitted)
  {
    YieldMonotone(rate, 0.0, now - last);
    forall j | 0 <= j < |admitted|
      ensures Room(rate, burst, admitted, j, now) == Room(rate, burst, admitted, j, last) + Yield(rate, now - last)
    {
      YieldAdds(rate, last - admitted[j], now - last);
      assert (last - admitted[j]) + (now - last) == now - admitted[j];
    }
  }

  lemma SpendMeters(rate: nat, burst: nat, tokens: real, now: real, admitted: seq<real>)
    requires Meters(rate, burst, tokens, now, admitted)
    ensures Meters(rate, burst, tokens - 1.0, now, admitted + [now])
  {
    var more := admitted + [now];
    YieldMonotone(rate, 0.0, 0.0);
    assert Room(rate, burst, more, |admitted|, now) == burst as real - 1.0;
    assert forall j | 0 <= j < |admitted| ::
        Room(rate, burst, more, j, now) == Room(rate, burst, admitted, j, now) - 1.0;
  }

  lemma {:induction false} CountSinceSuffix(admitted: seq<real>, from: real) returns (j: nat)
    requires NonDecreasing(admitted)
    ensures j <= |admitted| && CountSince(admitted, from) == |admitted| - j
    ensures j < |admitted| ==> admitted[j] >= from
    ensures forall i | 0 <= i < j :: admitted[i] < from
  {
    if admitted == [] {
      j := 0;
    } else {
      var front := admitted[..|admitted| - 1];
      j := CountSinceSuffix(front, from);
      if j == |front| && admitted[|front|] < from {
        j := |admitted|;
      }
    }
  }

  /** Less than one token is left exactly when some window is full. */
  lemma FullWhenEmpty(rate: nat, burst: nat, tokens: real, now: real, admitted: seq<real>)
    requires burst > 0 && Meters(rate, burst, tokens, now, admitted)
    ensures tokens < 1.0 <==> Full(rate, burst, admitted, now)
  {
    if tokens < 1.0 {
      var j :| 0 <= j < |admitted| && tokens == Room(rate, burst, admitted, j, now);
      var first := CountSinceSuffix(admitted, admitted[j]);
      assert first <= j;
      assert Overfills(rate, burst, admitted, admitted[j], now);
    }
    if Full(rate, burst, admitted, now) {
      var from :| from <= now && Overfills(rate, burst, admitted, from, now);
      var j := CountSinceSuffix(admitted, from);
      YieldMonotone(rate, 0.0, now - from);
      assert j < |admitted|;
      YieldMonotone(rate, now - admitted[j], now - from);
      assert Room(rate, burst, admitted, j, now) < 1.0;
    }
  }

  /** The limiter, with ghost records of the requests it metered and of those it admitted. */
  class RateLimiter {
    const rate: int
    const burst: int
    var tokens: real
    var last: real
    ghost var requests: seq<real>
    ghost var admitted: seq<real>

    ghost predicate Valid()
      reads this
    {
      rate > 0 ==>
        && burst > 0
        && admitted == Admitted(rate, burst, requests)
        && Meters(rate, burst, tokens, last, admitted)
    }

    constructor (rate: int, burst: int, now: real)
      ensures Valid() && requests == [] && admitted == []
      ensures this.rate == rate && this.burst == (if burst <= 0 then rate else burst) && last == now
    {
      this.rate := rate;
      var actual := burst;
      if actual <= 0 {
        actual := rate;
      }
      this.burst := actual;
      tokens := actual as real;
      last := now;
      requests, admitted := [], [];
    }

    /** Allow, at the clock reading `now`. With a rate of zero or less nothing is limited. */
    method Allow(now: real) returns (allowed: bool)
      requires Valid() && last <= now
      modifies this
      ensures Valid()
      ensures rate <= 0 ==> allowed && unchanged(`tokens, `last)
      ensures rate > 0 ==> allowed == !Full(rate, burst, old(admitted), now)
      ensures rate > 0 ==> last == now && requests == old(requests) + [now]
      ensures rate > 0 ==> admitted == if allowed then old(admitted) + [now] else old(admitted)
    {
      if rate <= 0 {
        return true;
      }
      var elapsed := now - last;
      YieldIsProduct(rate, elapsed);
      RefillMeters(rate, burst, tokens, last, admitted, now, tokens + elapsed * rate as real);
      tokens := tokens + elapsed * rate as real;
      if tokens > burst as real {
        tokens := burst as real;
      }
      last := now;
      FullWhenEmpty(rate, burst, tokens, now, admitted);
      requests := requests + [now];
      assert requests[..|requests| - 1] == old(requests);
      if tokens < 1.0 {
        return false;
      }
      SpendMeters(rate, burst, tokens, now, admitted);
      tokens := tokens - 1.0;
      admitted := admitted + [now];
      return true;
    }
  }

  /** A nil limiter lets everything through. */
  method AllowAny(limiter: RateLimiter?, now: real) returns (allowed: bool)
    requires limiter != null ==> limiter.Valid() && limiter.last <= now
    modifies limiter
    ensures limiter == null ==> allowed
    ensures limiter != null ==> limiter.Valid()
    ensures limiter != null && limiter.rate > 0 ==>
              allowed == !Full(limiter.rate, limiter.burst, old(limiter.admitted), now)
  {
    if limiter == null {
      return true;
    }
    allowed := limiter.Allow(now);
  }
}
