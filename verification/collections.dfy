/** Optional values and results, sums over sequences, and sequences without repetition. */
module Collections {
  datatype Option<+T> = None | Some(value: T)

  datatype Result<+T, +E> = Ok(value: T) | Err(error: E)

  function One(due: bool): nat {
    if due then 1 else 0
  }

  /** The sum of `f` over a sequence. */
  function Sum<T>(s: seq<T>, f: T -> nat): nat {
    if s == [] then 0 else Sum(s[..|s| - 1], f) + f(s[|s| - 1])
  }

  lemma {:induction false} SumAfterUpdate<T>(s: seq<T>, f: T -> nat, k: nat, x: T)
    requires k < |s|
    ensures Sum(s[k := x], f) == Sum(s, f) - f(s[k]) + f(x)
  {
    var front, last := s[..|s| - 1], |s| - 1;
    if k < last {
      SumAfterUpdate(front, f, k, x);
      assert s[k := x][..last] == front[k := x];
    } else {
      assert s[k := x][..last] == front;
    }
  }

  lemma {:induction false} SumIsZero<T>(s: seq<T>, f: T -> nat)
    ensures Sum(s, f) == 0 <==> forall k | 0 <= k < |s| :: f(s[k]) == 0
  {
    if s != [] {
      SumIsZero(s[..|s| - 1], f);
    }
  }

  lemma {:induction false} SumAtMost<T>(s: seq<T>, f: T -> nat, g: T -> nat)
    requires forall k | 0 <= k < |s| :: f(s[k]) <= g(s[k])
    ensures Sum(s, f) <= Sum(s, g)
  {
    if s != [] {
      SumAtMost(s[..|s| - 1], f, g);
    }
  }

  /** Sequences that differ in one place differ in their sums by what stands there. */
  lemma {:induction false} SumDiffers<T>(s: seq<T>, t: seq<T>, f: T -> nat, k: nat)
    requires k < |s| == |t| && forall i | 0 <= i < |s| && i != k :: f(t[i]) == f(s[i])
    ensures Sum(t, f) - f(t[k]) == Sum(s, f) - f(s[k]) >= 0
  {
    var last := |s| - 1;
    if k < last {
      SumDiffers(s[..last], t[..last], f, k);
    } else {
      SumSame(s[..last], t[..last], f);
    }
  }

  lemma {:induction false} SumSame<T>(s: seq<T>, t: seq<T>, f: T -> nat)
    requires |s| == |t| && forall i | 0 <= i < |s| :: f(t[i]) == f(s[i])
    ensures Sum(t, f) == Sum(s, f)
  {
    if s != [] {
      SumSame(s[..|s| - 1], t[..|s| - 1], f);
    }
  }

  lemma {:induction false} SubsetSize<T>(a: set<T>, b: set<T>)
    requires a <= b
    ensures |a| <= |b| && (|a| == |b| <==> a == b)
  {
    if x :| x in a {
      SubsetSize(a - {x}, b - {x});
      assert a == (a - {x}) + {x} && b == (b - {x}) + {x};
    }
  }

  ghost predicate Distinct<T(!new)>(s: seq<T>) {
    forall i, j | 0 <= i < j < |s| :: s[i] != s[j]
  }

  /** Repetition does not depend on the order. */
  lemma {:induction false} DistinctByCount<T(!new)>(s: seq<T>)
    ensures Distinct(s) <==> forall x :: multiset(s)[x] <= 1
  {
    if s != [] {
      var front, last := s[..|s| - 1], s[|s| - 1];
      DistinctByCount(front);
      assert s == front + [last];
      if Distinct(s) {
        assert last !in front;
        assert multiset(front)[last] == 0;
      } else if Distinct(front) {
        var i :| 0 <= i < |front| && s[i] == last;
        assert front[i] in multiset(front);
        assert multiset(s)[last] >= 2;
      } else {
        var x :| multiset(front)[x] > 1;
        assert multiset(s)[x] > 1;
      }
    }
  }

  ghost function SomeOrder<T(!new)>(s: set<T>): (order: seq<T>)
    ensures multiset(order) == multiset(s)
  {
    if s == {} then []
    else
      var x :| x in s;
      assert s == (s - {x}) + {x};
      SomeOrder(s - {x}) + [x]
  }

  lemma OrderedOnce<T(!new)>(order: seq<T>, s: set<T>)
    requires multiset(order) == multiset(s)
    ensures Distinct(order) && forall x :: x in order <==> x in s
  {
    DistinctByCount(order);
    forall x
      ensures x in order <==> x in s
    {
      assert x in multiset(order) <==> x in multiset(s);
    }
  }

  lemma DistinctBetween<T(!new)>(x: T, others: seq<T>, y: T)
    requires Distinct(others) && x !in others && y !in others && x != y
    ensures Distinct([x] + others + [y])
    ensures forall z :: z in [x] + others + [y] <==> z == x || z in others || z == y
  {
  }

  /** The sequences one after the other. */
  ghost function Flatten<T>(parts: seq<seq<T>>): seq<T> {
    if parts == [] then [] else Flatten(parts[..|parts| - 1]) + parts[|parts| - 1]
  }
}
