/** The deduplication cache: fingerprints seen within the last `ttl`, pruned on
    every look-up. Instants are integer nanoseconds. */
module FingerprintCaching {

  type Entries = map<string, int>

  datatype Call = Call(key: string, now: int)

  /** The key was accepted at most `ttl` before `now`. */
  predicate Live(entries: Entries, ttl: int, key: string, now: int) {
    key in entries && now - entries[key] <= ttl
  }

  /** What pruning at `now` keeps; with a ttl of zero or less it keeps everything. */
  function Pruned(entries: Entries, ttl: int, now: int): Entries {
    if ttl <= 0 then entries else map key | key in entries && Live(entries, ttl, key, now) :: entries[key]
  }

  /** The entries a look-up leaves behind. */
  function After(entries: Entries, ttl: int, call: Call): Entries {
    var kept := Pruned(entries, ttl, call.now);
    if Live(entries, ttl, call.key, call.now) then kept else kept[call.key := call.now]
  }

  // ----- runs of look-ups, in the order they take the lock -----

  ghost function CacheAfter(start: Entries, ttl: int, calls: seq<Call>): Entries {
    if calls == [] then start
    else After(CacheAfter(start, ttl, calls[..|calls| - 1]), ttl, calls[|calls| - 1])
  }

  /** The i-th look-up of a run is not a duplicate. */
  ghost predicate Accepts(start: Entries, ttl: int, calls: seq<Call>, i: nat)
    requires i < |calls|
  {
    !Live(CacheAfter(start, ttl, calls[..i]), ttl, calls[i].key, calls[i].now)
  }

  /** Whether a look-up is accepted depends on those before it alone. */
  lemma AcceptsInPrefix(start: Entries, ttl: int, calls: seq<Call>, n: nat, j: nat)
    requires j < n <= |calls|
    ensures calls[..n][j] == calls[j] && (Accepts(start, ttl, calls[..n], j) <==> Accepts(start, ttl, calls, j))
  {
    assert calls[..n][..j] == calls[..j];
  }

  /** The look-up is for the key and gets through. */
  ghost predicate Passing(start: Entries, ttl: int, calls: seq<Call>, j: nat, key: string) {
    j < |calls| && calls[j].key == key && Accepts(start, ttl, calls, j)
  }

  lemma PassingInPrefix(start: Entries, ttl: int, calls: seq<Call>, j: nat, key: string)
    requires calls != [] && j < |calls| - 1
    ensures Passing(start, ttl, calls, j, key) <==> Passing(start, ttl, calls[..|calls| - 1], j, key)
  {
    AcceptsInPrefix(start, ttl, calls, |calls| - 1, j);
  }

  /** Every look-up the cache ever accepted, never pruned. */
  ghost function Record(ttl: int, calls: seq<Call>): seq<Call> {
    if calls == [] then []
    else
      var front := calls[..|calls| - 1];
      if Accepts(map[], ttl, calls, |front|) then Record(ttl, front) + [calls[|front|]] else Record(ttl, front)
  }

  ghost predicate Remembered(record: seq<Call>, ttl: int, call: Call) {
    exists i | 0 <= i < |record| :: record[i].key == call.key && call.now - record[i].now <= ttl
  }

  ghost predicate Ordered(calls: seq<Call>) {
    forall i, j | 0 <= i < j < |calls| :: calls[i].now <= calls[j].now
  }

  /** What a look-up leaves of a key's entry. */
  lemma EntryAfter(entries: Entries, ttl: int, call: Call, key: string)
    ensures var after := After(entries, ttl, call);
            if call.key == key && !Live(entries, ttl, key, call.now) then key in after && after[key] == call.now
            else (key in after ==> after[key] == entries[key])
                 && (key in after <==> key in entries && (ttl <= 0 || Live(entries, ttl, key, call.now)))
  {
  }

  /** The m-th look-up was the last one accepted for the key, and no later reading has outlived it. */
  ghost predicate Standing(ttl: int, calls: seq<Call>, m: nat, key: string) {
    && Passing(map[], ttl, calls, m, key)
    && forall j: nat | m < j < |calls| ::
         !Passing(map[], ttl, calls, j, key) && (ttl > 0 ==> calls[j].now - calls[m].now <= ttl)
  }

  /** An accepted look-up takes the place of the one that stood for its key. */
  lemma StandingTaken(ttl: int, calls: seq<Call>, m: nat, key: string)
    requires calls != [] && Passing(map[], ttl, calls, |calls| - 1, key)
    ensures Standing(ttl, calls, m, key) <==> m == |calls| - 1
  {
  }

  /** Any other leaves it standing unless its reading outlives it. */
  lemma StandingKept(ttl: int, calls: seq<Call>, m: nat, key: string)
    requires calls != [] && !Passing(map[], ttl, calls, |calls| - 1, key)
    ensures Standing(ttl, calls, m, key)
       <==> && Standing(ttl, calls[..|calls| - 1], m, key)
            && (ttl > 0 ==> calls[|calls| - 1].now - calls[m].now <= ttl)
  {
    var last := |calls| - 1;
    forall j: nat | j < last
      ensures Passing(map[], ttl, calls, j, key) <==> Passing(map[], ttl, calls[..last], j, key)
    {
      PassingInPrefix(map[], ttl, calls, j, key);
    }
  }

  /** The entry of a key is the time of the look-up that stands for it. */
  lemma {:induction false} EntryStands(ttl: int, calls: seq<Call>, key: string)
    ensures key in CacheAfter(map[], ttl, calls) <==> exists m: nat :: Standing(ttl, calls, m, key)
    ensures forall m: nat | Standing(ttl, calls, m, key) :: CacheAfter(map[], ttl, calls)[key] == calls[m].now
  {
    if calls != [] {
      var front, last := calls[..|calls| - 1], calls[|calls| - 1];
      EntryStands(ttl, front, key);
      EntryAfter(CacheAfter(map[], ttl, front), ttl, last, key);
      if Passing(map[], ttl, calls, |front|, key) {
        forall m: nat
          ensures Standing(ttl, calls, m, key) <==> m == |front|
        {
          StandingTaken(ttl, calls, m, key);
        }
        assert Standing(ttl, calls, |front|, key);
      } else {
        forall m: nat
          ensures Standing(ttl, calls, m, key)
             <==> Standing(ttl, front, m, key) && (ttl > 0 ==> last.now - calls[m].now <= ttl)
        {
          StandingKept(ttl, calls, m, key);
        }
        if key in CacheAfter(map[], ttl, front) {
          var m: nat :| Standing(ttl, front, m, key);
          assert Standing(ttl, calls, m, key) <==> (ttl > 0 ==> last.now - calls[m].now <= ttl);
        }
      }
    }
  }

  /** For any readings, in any order: a look-up is refused exactly when some look-up of its
      key stands that was accepted at most one ttl before. */
  lemma RefusedExactly(ttl: int, calls: seq<Call>, next: Call)
    ensures Live(CacheAfter(map[], ttl, calls), ttl, next.key, next.now)
       <==> exists m: nat :: Standing(ttl, calls, m, next.key) && next.now - calls[m].now <= ttl
  {
    EntryStands(ttl, calls, next.key);
  }

  /** The look-up was accepted for the key at most one ttl before `now`. */
  ghost predicate Recent(ttl: int, calls: seq<Call>, m: nat, key: string, now: int) {
    Passing(map[], ttl, calls, m, key) && now - calls[m].now <= ttl
  }

  /** A look-up that no later reading has outlived is the last accepted for its key. */
  lemma {:induction false} NotOutlivedStands(ttl: int, calls: seq<Call>, m: nat, n: nat)
    requires ttl > 0 && m < n <= |calls| && Accepts(map[], ttl, calls, m)
    requires forall j: nat | m < j < n :: calls[j].now - calls[m].now <= ttl
    ensures Standing(ttl, calls[..n], m, calls[m].key)
  {
    if n == m + 1 {
      AcceptsInPrefix(map[], ttl, calls, n, m);
    } else {
      NotOutlivedStands(ttl, calls, m, n - 1);
      assert calls[..n][..n - 1] == calls[..n - 1];
      StandsOn(ttl, calls[..n], m);
    }
  }

  /** A look-up that stands goes on standing when the next reading does not outlive it. */
  lemma StandsOn(ttl: int, calls: seq<Call>, m: nat)
    requires ttl > 0 && m < |calls| - 1 && Standing(ttl, calls[..|calls| - 1], m, calls[m].key)
    requires calls[|calls| - 1].now - calls[m].now <= ttl
    ensures Standing(ttl, calls, m, calls[m].key)
  {
    EntryStands(ttl, calls[..|calls| - 1], calls[m].key);
    StandingKept(ttl, calls, m, calls[m].key);
  }

  /** For any readings, in any order: of the look-ups of its key accepted at most one ttl
      before, a look-up is refused exactly when one was not outlived by a reading since. It
      slips through exactly when every one was. */
  lemma SlipsThroughExactly(ttl: int, calls: seq<Call>, next: Call)
    requires ttl > 0
    ensures !Live(CacheAfter(map[], ttl, calls), ttl, next.key, next.now)
       <==> forall m: nat | Recent(ttl, calls, m, next.key, next.now) ::
              exists j | m < j < |calls| :: calls[j].now - calls[m].now > ttl
  {
    RefusedExactly(ttl, calls, next);
    if m: nat :| && Recent(ttl, calls, m, next.key, next.now)
                 && forall j | m < j < |calls| :: calls[j].now - calls[m].now <= ttl {
      NotOutlivedStands(ttl, calls, m, |calls|);
      assert calls[..|calls|] == calls;
    }
  }

  lemma RecentNext(ttl: int, calls: seq<Call>, m: nat, key: string, now: int)
    requires calls != []
    ensures Recent(ttl, calls, m, key, now)
       <==> if m == |calls| - 1 then
              calls[m].key == key && now - calls[m].now <= ttl && Accepts(map[], ttl, calls, m)
            else Recent(ttl, calls[..|calls| - 1], m, key, now)
  {
    if m < |calls| - 1 {
      PassingInPrefix(map[], ttl, calls, m, key);
    }
  }

  lemma RememberedNext(record: seq<Call>, last: Call, ttl: int, next: Call)
    ensures Remembered(record + [last], ttl, next)
       <==> Remembered(record, ttl, next) || (last.key == next.key && next.now - last.now <= ttl)
  {
    var more := record + [last];
    assert more[|record|] == last && forall i | 0 <= i < |record| :: more[i] == record[i];
  }

  /** The never-pruned record holds exactly the accepted look-ups. */
  lemma {:induction false} RecordedExactly(ttl: int, calls: seq<Call>, next: Call)
    ensures Remembered(Record(ttl, calls), ttl, next) <==> exists m: nat :: Recent(ttl, calls, m, next.key, next.now)
  {
    if calls != [] {
      var last := |calls| - 1;
      RecordedExactly(ttl, calls[..last], next);
      RememberedNext(Record(ttl, calls[..last]), calls[last], ttl, next);
      RecentNext(ttl, calls, last, next.key, next.now);
      forall m: nat | m != last
        ensures Recent(ttl, calls, m, next.key, next.now) <==> Recent(ttl, calls[..last], m, next.key, next.now)
      {
        RecentNext(ttl, calls, m, next.key, next.now);
      }
      if m: nat :| Recent(ttl, calls[..last], m, next.key, next.now) {
        assert Recent(ttl, calls, m, next.key, next.now);
      }
    }
  }

  /** Of ordered readings the last one accepted stands. */
  lemma {:induction false} OrderedStands(ttl: int, calls: seq<Call>, m: nat, key: string, now: int) returns (n: nat)
    requires Ordered(calls) && (forall j | 0 <= j < |calls| :: calls[j].now <= now) && Recent(ttl, calls, m, key, now)
    ensures Standing(ttl, calls, n, key) && now - calls[n].now <= ttl
    decreases |calls| - m
  {
    if j: nat :| m < j < |calls| && Passing(map[], ttl, calls, j, key) {
      n := OrderedStands(ttl, calls, j, key, now);
    } else {
      n := m;
    }
  }

  /** With ordered clock readings the pruned cache answers as if nothing had ever been forgotten. */
  lemma PruningForgetsNothing(ttl: int, calls: seq<Call>, next: Call)
    requires Ordered(calls + [next])
    ensures Live(CacheAfter(map[], ttl, calls), ttl, next.key, next.now) <==> Remembered(Record(ttl, calls), ttl, next)
  {
    assert forall i | 0 <= i < |calls| :: (calls + [next])[i] == calls[i];
    assert (calls + [next])[|calls|] == next;
    NeverSpurious(ttl, calls, next);
    RecordedExactly(ttl, calls, next);
    if m: nat :| Recent(ttl, calls, m, next.key, next.now) {
      var n := OrderedStands(ttl, calls, m, next.key, next.now);
      RefusedExactly(ttl, calls, next);
    }
  }

  /** Whatever the clock does, a look-up refused as a duplicate repeats an accepted one. */
  lemma NeverSpurious(ttl: int, calls: seq<Call>, next: Call)
    ensures Live(CacheAfter(map[], ttl, calls), ttl, next.key, next.now) ==> Remembered(Record(ttl, calls), ttl, next)
  {
    RefusedExactly(ttl, calls, next);
    RecordedExactly(ttl, calls, next);
    if m: nat :| Standing(ttl, calls, m, next.key) && next.now - calls[m].now <= ttl {
      assert Recent(ttl, calls, m, next.key, next.now);
    }
  }

  /** A reading taken before the lock and used after one that outlives the key's entry: the
      look-up is accepted although the same key was accepted within the ttl. */
  lemma LateReadingSlipsThrough() returns (calls: seq<Call>, late: Call)
    ensures calls == [Call("a", 0), Call("b", 11)] && late == Call("a", 5)
    ensures Remembered(Record(10, calls), 10, late) && !Live(CacheAfter(map[], 10, calls), 10, late.key, late.now)
  {
    calls, late := [Call("a", 0), Call("b", 11)], Call("a", 5);
    assert calls[..0] == [];
    assert Recent(10, calls, 0, "a", 5);
    RecordedExactly(10, calls, late);
    SlipsThroughExactly(10, calls, late);
    assert calls[1].now - calls[0].now > 10;
  }

  /** After each look-up every stored entry is within the ttl of its clock reading. */
  lemma NothingStale(entries: Entries, ttl: int, call: Call, key: string)
    requires ttl > 0 && key in After(entries, ttl, call)
    ensures call.now - After(entries, ttl, call)[key] <= ttl
    ensures key != call.key ==> key in entries && After(entries, ttl, call)[key] == entries[key]
  {
  }

  // ----- how often one key gets through -----

  /** Accepted look-ups of one key are more than the ttl apart. */
  lemma {:induction false} AcceptedFarApart(ttl: int, calls: seq<Call>)
    requires Ordered(calls)
    ensures FarApart(Record(ttl, calls), ttl)
  {
    if calls != [] {
      var front, last := calls[..|calls| - 1], calls[|calls| - 1];
      AcceptedFarApart(ttl, front);
      assert calls == front + [last];
      PruningForgetsNothing(ttl, front, last);
      if Accepts(map[], ttl, calls, |front|) {
        FarApartAppend(Record(ttl, front), ttl, last);
      }
    }
  }

  ghost function CountWithin(record: seq<Call>, key: string, from: int, to: int): nat {
    if record == [] then 0
    else
      var last := record[|record| - 1];
      CountWithin(record[..|record| - 1], key, from, to) + if last.key == key && from <= last.now <= to then 1 else 0
  }

  /** `n` gaps of one ttl each. */
  ghost function Gaps(n: nat, ttl: int): int {
    if n == 0 then 0 else Gaps(n - 1, ttl) + ttl
  }

  ghost predicate FarApart(record: seq<Call>, ttl: int) {
    forall i, j | 0 <= i < j < |record| :: record[i].key == record[j].key ==> record[j].now - record[i].now > ttl
  }

  lemma FarApartAppend(record: seq<Call>, ttl: int, call: Call)
    requires FarApart(record, ttl) && !Remembered(record, ttl, call)
    ensures FarApart(record + [call], ttl)
  {
  }

  lemma LastIsFarApart(record: seq<Call>, ttl: int, earlier: Call)
    requires record != [] && FarApart(record, ttl)
    requires earlier in record[..|record| - 1] && earlier.key == record[|record| - 1].key
    ensures record[|record| - 1].now - earlier.now > ttl
  {
    var i :| 0 <= i < |record| - 1 && record[i] == earlier;
  }

  lemma {:induction false} GapsAddUp(record: seq<Call>, ttl: int, key: string, from: int, to: int) returns (latest: int)
    requires ttl > 0 && FarApart(record, ttl)
    ensures CountWithin(record, key, from, to) > 0 ==>
              && from <= latest <= to && Call(key, latest) in record
              && Gaps(CountWithin(record, key, from, to) - 1, ttl) <= latest - from
  {
    latest := from;
    if record != [] {
      var front, last := record[..|record| - 1], record[|record| - 1];
      latest := GapsAddUp(front, ttl, key, from, to);
      if last.key == key && from <= last.now <= to {
        if CountWithin(front, key, from, to) > 0 {
          LastIsFarApart(record, ttl, Call(key, latest));
        }
        latest := last.now;
      }
    }
  }

  /** A window of length L accepts one key at most floor(L / ttl) + 1 times. */
  lemma WindowAccepts(ttl: int, calls: seq<Call>, key: string, from: int, length: nat)
    requires ttl > 0 && Ordered(calls)
    ensures CountWithin(Record(ttl, calls), key, from, from + length) <= length / ttl + 1
  {
    AcceptedFarApart(ttl, calls);
    var latest := GapsAddUp(Record(ttl, calls), ttl, key, from, from + length);
    var n := CountWithin(Record(ttl, calls), key, from, from + length);
    if n > 0 {
      GapsFit(n - 1, length, ttl);
    }
  }

  lemma {:induction false} GapsAreProduct(n: nat, ttl: int)
    ensures Gaps(n, ttl) == n * ttl
  {
    if n > 0 {
      GapsAreProduct(n - 1, ttl);
    }
  }

  lemma ProductMonotone(a: int, b: int, ttl: int)
    requires ttl > 0 && a >= b
    ensures a * ttl >= b * ttl
  {
    assert (a - b) * ttl >= 0;
  }

  lemma LessFactor(a: int, b: int, ttl: int)
    requires ttl > 0 && a * ttl < b * ttl
    ensures a < b
  {
    if a >= b {
      ProductMonotone(a, b, ttl);
    }
  }

  lemma GapsFit(n: nat, length: nat, ttl: int)
    requires ttl > 0 && Gaps(n, ttl) <= length
    ensures n <= length / ttl
  {
    GapsAreProduct(n, ttl);
    assert length < (length / ttl + 1) * ttl;
    LessFactor(n, length / ttl + 1, ttl);
  }

  // ----- many look-ups at about the same time -----

  /** How many look-ups of the key get through. */
  ghost function Passes(start: Entries, ttl: int, calls: seq<Call>, key: string): nat {
    if calls == [] then 0
    else
      var front := calls[..|calls| - 1];
      Passes(start, ttl, front, key) + if Passing(start, ttl, calls, |front|, key) then 1 else 0
  }

  ghost predicate Carries(calls: seq<Call>, key: string) {
    exists i | 0 <= i < |calls| :: calls[i].key == key
  }

  /** How a key stands after some look-ups: how often it got through, and whose entry it has. */
  ghost predicate Stands(start: Entries, calls: seq<Call>, key: string, passes: nat, entries: Entries) {
    if Carries(calls, key) then
      passes == 1 && key in entries && exists i | 0 <= i < |calls| :: entries[key] == calls[i].now
    else passes == 0 && (key in entries ==> key in start && entries[key] == start[key])
  }

  lemma StandsAfter(start: Entries, ttl: int, front: seq<Call>, last: Call, key: string, passes: nat, entries: Entries)
    requires Stands(start, front, key, passes, entries)
    requires !Live(start, ttl, key, last.now) && forall i | 0 <= i < |front| :: last.now - front[i].now <= ttl
    ensures Stands(start, front + [last], key,
                   passes + if last.key == key && !Live(entries, ttl, key, last.now) then 1 else 0,
                   After(entries, ttl, last))
  {
    var calls := front + [last];
    EntryAfter(entries, ttl, last, key);
    assert calls[|front|] == last && forall i | 0 <= i < |front| :: calls[i] == front[i];
    assert Carries(calls, key) <==> Carries(front, key) || last.key == key;
  }

  /** In whatever order they take the lock, of look-ups read within one ttl of each other
      exactly one gets through for every key that has no live entry to begin with. */
  lemma {:induction false} ExactlyOnePasses(start: Entries, ttl: int, calls: seq<Call>, key: string)
    requires forall i, j | 0 <= i < |calls| && 0 <= j < |calls| :: calls[i].now - calls[j].now <= ttl
    requires forall i | 0 <= i < |calls| :: !Live(start, ttl, key, calls[i].now)
    ensures Passes(start, ttl, calls, key) == if Carries(calls, key) then 1 else 0
    ensures Stands(start, calls, key, Passes(start, ttl, calls, key), CacheAfter(start, ttl, calls))
  {
    if calls != [] {
      var front, last := calls[..|calls| - 1], calls[|calls| - 1];
      ExactlyOnePasses(start, ttl, front, key);
      StandsAfter(start, ttl, front, last, key, Passes(start, ttl, front, key), CacheAfter(start, ttl, front));
      assert calls == front + [last];
    }
  }

  /** A count of one singles out the look-up that got through. */
  lemma {:induction false} TheOneThatPasses(start: Entries, ttl: int, calls: seq<Call>, key: string) returns (m: nat)
    requires Passes(start, ttl, calls, key) == 1
    ensures forall j: nat :: Passing(start, ttl, calls, j, key) <==> j == m
  {
    var last := |calls| - 1;
    if Passing(start, ttl, calls, last, key) {
      m := last;
      NonePasses(start, ttl, calls[..last], key);
    } else {
      m := TheOneThatPasses(start, ttl, calls[..last], key);
      assert Passing(start, ttl, calls[..last], m, key);
    }
    forall j: nat
      ensures Passing(start, ttl, calls, j, key) <==> j == m
    {
      if j < last {
        PassingInPrefix(start, ttl, calls, j, key);
      }
    }
  }

  lemma {:induction false} NonePasses(start: Entries, ttl: int, calls: seq<Call>, key: string)
    requires Passes(start, ttl, calls, key) == 0
    ensures forall j: nat :: !Passing(start, ttl, calls, j, key)
  {
    if calls != [] {
      NonePasses(start, ttl, calls[..|calls| - 1], key);
      forall j: nat
        ensures !Passing(start, ttl, calls, j, key)
      {
        if j < |calls| - 1 {
          PassingInPrefix(start, ttl, calls, j, key);
        }
      }
    }
  }

  // ----- the cache itself -----

  class FingerprintCache {
    const ttl: int
    var entries: Entries

    constructor (ttl: int)
      ensures this.ttl == ttl && entries == map[]
    {
      this.ttl := ttl;
      entries := map[];
    }

    /** Seen: one look-up under the lock. */
    method Seen(key: string, now: int) returns (seen: bool)
      modifies this
      ensures key == "" ==> !seen && entries == old(entries)
      ensures key != "" ==>
          seen == Live(old(entries), ttl, key, now) && entries == After(old(entries), ttl, Call(key, now))
    {
      if key == "" {
        return false;
      }
      Prune(now);
      if key in entries {
        if now - entries[key] <= ttl {
          return true;
        }
      }
      entries := entries[key := now];
      return false;
    }

    /** prune: the loop visits the entries in any order. */
    method Prune(now: int)
      modifies this
      ensures entries == Pruned(old(entries), ttl, now)
    {
      if ttl <= 0 {
        return;
      }
      var todo := entries.Keys;
      while todo != {}
        invariant todo <= entries.Keys <= old(entries).Keys
        invariant forall key | key in entries :: entries[key] == old(entries)[key]
        invariant forall key | key in old(entries) && key !in todo ::
                    key in entries <==> Live(old(entries), ttl, key, now)
      {
        var key :| key in todo;
        todo := todo - {key};
        if now - entries[key] > ttl {
          entries := entries - {key};
        }
      }
    }
  }
}
