/** The edit distance behind fuzzy component matching: levenshteinDistance
    computes the least cost of an edit script, which makes it a metric. */
module EditDistance {
  import opened Collections
  import opened Text

  /** One step of a script that reads the source text and writes the target text. */
  datatype Edit =
    | Keep
    | Delete
    | Insert(c: char)
    | Substitute(c: char)
  {
    function Cost(): nat {
      if Keep? then 0 else 1
    }

    /** What the step writes when it reads `read`; an Insert reads nothing. */
    function Written(read: char): string {
      match this
      case Keep => [read]
      case Delete => ""
      case Insert(c) => [c]
      case Substitute(c) => [c]
    }
  }

  /** What a script writes when it reads exactly `s`; None if it does not fit `s`. */
  function Run(script: seq<Edit>, s: string): Option<string> {
    if script == [] then
      if s == "" then Some("") else None
    else
      var front, step := script[..|script| - 1], script[|script| - 1];
      if step.Insert? then
        match Run(front, s)
        case None => None
        case Some(t) => Some(t + [step.c])
      else if s == "" then None
      else
        match Run(front, s[..|s| - 1])
        case None => None
        case Some(t) => Some(t + step.Written(s[|s| - 1]))
  }

  function Cost(script: seq<Edit>): nat {
    if script == [] then 0 else Cost(script[..|script| - 1]) + script[|script| - 1].Cost()
  }

  ghost predicate Turns(script: seq<Edit>, s: string, t: string) {
    Run(script, s) == Some(t)
  }

  /** `d` is the edit distance: some script costs `d` and none costs less. */
  ghost predicate IsDistance(d: int, s: string, t: string) {
    && (exists script :: Turns(script, s, t) && Cost(script) == d)
    && (forall script :: Turns(script, s, t) ==> d <= Cost(script))
  }

  function Min3(a: int, b: int, c: int): (m: int)
    ensures m <= a && m <= b && m <= c && m in {a, b, c}
  {
    if a < b then if a < c then a else c
    else if b < c then b else c
  }

  function Max(a: int, b: int): (m: int)
    ensures a <= m && b <= m && m in {a, b}
  {
    if a > b then a else b
  }

  /** The recurrence over prefixes `s[..i]` and `t[..j]` that the matrix tabulates. */
  function Cell(s: string, i: nat, t: string, j: nat): (d: nat)
    requires i <= |s| && j <= |t|
  {
    if i == 0 then j
    else if j == 0 then i
    else Min3(Cell(s, i - 1, t, j) + 1, Cell(s, i, t, j - 1) + 1,
              Cell(s, i - 1, t, j - 1) + if s[i - 1] == t[j - 1] then 0 else 1)
  }

  function Distance(s: string, t: string): nat {
    Cell(s, |s|, t, |t|)
  }

  /** `step` takes a script that turns `s0` into `t0` to one that turns `s` into `t`. */
  ghost predicate Extends(step: Edit, s0: string, t0: string, s: string, t: string) {
    && (if step.Insert? then s0 == s else s != "" && s0 == s[..|s| - 1])
    && (if step.Delete? then t0 == t else t != "" && t0 == t[..|t| - 1])
    && (step.Keep? ==> s[|s| - 1] == t[|t| - 1])
    && (step.Insert? || step.Substitute? ==> step.c == t[|t| - 1])
  }

  lemma Append(front: seq<Edit>, s0: string, t0: string, step: Edit, s: string, t: string)
    requires Turns(front, s0, t0) && Extends(step, s0, t0, s, t)
    ensures Turns(front + [step], s, t) && Cost(front + [step]) == Cost(front) + step.Cost()
  {
    assert (front + [step])[..|front|] == front;
    assert step.Delete? ==> t == t0 + "";
    assert !step.Delete? ==> t == t0 + [t[|t| - 1]];
  }

  /** Append between prefixes, as the recurrence walks them. */
  lemma AppendAt(front: seq<Edit>, step: Edit, s: string, i: nat, t: string, j: nat)
    requires i <= |s| && j <= |t|
    requires (!step.Insert? ==> i > 0) && (!step.Delete? ==> j > 0)
    requires (step.Keep? ==> s[i - 1] == t[j - 1]) && (step.Insert? || step.Substitute? ==> step.c == t[j - 1])
    requires Turns(front, s[..if step.Insert? then i else i - 1], t[..if step.Delete? then j else j - 1])
    ensures Turns(front + [step], s[..i], t[..j]) && Cost(front + [step]) == Cost(front) + step.Cost()
  {
    var i0, j0 := if step.Insert? then i else i - 1, if step.Delete? then j else j - 1;
    assert s[..i][..i0] == s[..i0] && t[..j][..j0] == t[..j0];
    Append(front, s[..i0], t[..j0], step, s[..i], t[..j]);
  }

  lemma Unappend(script: seq<Edit>, s: string, t: string) returns (s0: string, t0: string)
    requires script != [] && Turns(script, s, t)
    ensures Turns(script[..|script| - 1], s0, t0) && Extends(script[|script| - 1], s0, t0, s, t)
  {
    var front, step := script[..|script| - 1], script[|script| - 1];
    s0 := if step.Insert? then s else s[..|s| - 1];
    t0 := Run(front, s0).value;
    assert t == t0 + (if step.Insert? then [step.c] else step.Written(s[|s| - 1]));
    assert step.Delete? ==> t == t0;
  }

  /** A script of exactly the tabulated cost exists. */
  lemma {:induction false} Achieved(s: string, i: nat, t: string, j: nat) returns (script: seq<Edit>)
    requires i <= |s| && j <= |t|
    ensures Turns(script, s[..i], t[..j]) && Cost(script) == Cell(s, i, t, j)
    decreases i + j
  {
    if i == 0 && j == 0 {
      return [];
    }
    var i0, j0, step := i, j, Delete;
    if j == 0 || (i > 0 && Cell(s, i, t, j) == Cell(s, i - 1, t, j) + 1) {
      i0 := i - 1;
    } else if i == 0 || Cell(s, i, t, j) == Cell(s, i, t, j - 1) + 1 {
      j0, step := j - 1, Insert(t[j - 1]);
    } else {
      i0, j0 := i - 1, j - 1;
      step := if s[i - 1] == t[j - 1] then Keep else Substitute(t[j - 1]);
    }
    var front := Achieved(s, i0, t, j0);
    AppendAt(front, step, s, i, t, j);
    script := front + [step];
  }

  /** No script is cheaper than the tabulated cost. */
  lemma {:induction false} NoneCheaper(script: seq<Edit>, s: string, i: nat, t: string, j: nat)
    requires i <= |s| && j <= |t|
    requires Turns(script, s[..i], t[..j])
    ensures Cell(s, i, t, j) <= Cost(script)
    decreases |script|
  {
    if script != [] {
      var front, step := script[..|script| - 1], script[|script| - 1];
      var s0, t0 := Unappend(script, s[..i], t[..j]);
      var i0, j0 := |s0|, |t0|;
      assert s0 == s[..i0] && t0 == t[..j0];
      NoneCheaper(front, s, i0, t, j0);
      CellAtMost(s, i0, t, j0);
    }
  }

  lemma DistanceIsLeast(s: string, t: string)
    ensures IsDistance(Distance(s, t), s, t)
  {
    assert s[..|s|] == s && t[..|t|] == t;
    var script := Achieved(s, |s|, t, |t|);
    forall other | Turns(other, s, t)
      ensures Distance(s, t) <= Cost(other)
    {
      NoneCheaper(other, s, |s|, t, |t|);
    }
  }

  lemma {:induction false} CellAtLeast(s: string, i: nat, t: string, j: nat)
    requires i <= |s| && j <= |t|
    ensures i - j <= Cell(s, i, t, j) && j - i <= Cell(s, i, t, j)
  {
    if i > 0 && j > 0 {
      CellAtLeast(s, i - 1, t, j);
      CellAtLeast(s, i, t, j - 1);
      CellAtLeast(s, i - 1, t, j - 1);
    }
  }

  lemma {:induction false} CellAtMost(s: string, i: nat, t: string, j: nat)
    requires i <= |s| && j <= |t|
    ensures Cell(s, i, t, j) <= Max(i, j)
  {
    if i > 0 && j > 0 {
      CellAtMost(s, i - 1, t, j - 1);
    }
  }

  /** The distance lies between the difference of the lengths and the longer length. */
  lemma Bounds(s: string, t: string)
    ensures |s| - |t| <= Distance(s, t) && |t| - |s| <= Distance(s, t) <= Max(|s|, |t|)
  {
    CellAtLeast(s, |s|, t, |t|);
    CellAtMost(s, |s|, t, |t|);
  }

  lemma {:induction false} CellZero(s: string, i: nat, t: string, j: nat)
    requires i <= |s| && j <= |t|
    ensures Cell(s, i, t, j) == 0 <==> i == j && forall k | 0 <= k < i :: s[k] == t[k]
  {
    if i > 0 && j > 0 {
      CellZero(s, i - 1, t, j - 1);
    }
  }

  lemma ZeroIffEqual(s: string, t: string)
    ensures Distance(s, t) == 0 <==> s == t
  {
    CellZero(s, |s|, t, |t|);
  }

  lemma {:induction false} CellSymmetric(s: string, i: nat, t: string, j: nat)
    requires i <= |s| && j <= |t|
    ensures Cell(s, i, t, j) == Cell(t, j, s, i)
  {
    if i > 0 && j > 0 {
      CellSymmetric(s, i - 1, t, j);
      CellSymmetric(s, i, t, j - 1);
      CellSymmetric(s, i - 1, t, j - 1);
    }
  }

  lemma Symmetric(s: string, t: string)
    ensures Distance(s, t) == Distance(t, s)
  {
    CellSymmetric(s, |s|, t, |t|);
  }

  /** Two scripts run one after the other are one script that costs no more. */
  lemma {:induction false} Compose(a: seq<Edit>, s: string, t: string, b: seq<Edit>, u: string) returns (c: seq<Edit>)
    requires Turns(a, s, t) && Turns(b, t, u)
    ensures Turns(c, s, u) && Cost(c) <= Cost(a) + Cost(b)
    decreases |a| + |b|
  {
    if a == [] && b == [] {
      return [];
    }
    var step: Edit;
    var s0, u0 := s, u;
    if a != [] && a[|a| - 1].Delete? {
      var t0;
      s0, t0 := Unappend(a, s, t);
      step := Delete;
      c := Compose(a[..|a| - 1], s0, t, b, u);
    } else if b != [] && b[|b| - 1].Insert? {
      var t0;
      t0, u0 := Unappend(b, t, u);
      step := b[|b| - 1];
      c := Compose(a, s, t, b[..|b| - 1], u0);
    } else {
      // the last step of `a` writes the character that the last step of `b` reads
      var t0, t1;
      s0, t0 := Unappend(a, s, t);
      t1, u0 := Unappend(b, t, u);
      assert t0 == t1;
      c := Compose(a[..|a| - 1], s0, t0, b[..|b| - 1], u0);
      var x, y := a[|a| - 1], b[|b| - 1];
      if x.Insert? && y.Delete? {
        return;
      }
      step := if y.Delete? then Delete
              else if x.Insert? then Insert(u[|u| - 1])
              else if x.Keep? && y.Keep? then Keep
              else Substitute(u[|u| - 1]);
    }
    Append(c, s0, u0, step, s, u);
    c := c + [step];
  }

  lemma TriangleInequality(s: string, t: string, u: string)
    ensures Distance(s, u) <= Distance(s, t) + Distance(t, u)
  {
    DistanceIsLeast(s, t);
    DistanceIsLeast(t, u);
    DistanceIsLeast(s, u);
    var a :| Turns(a, s, t) && Cost(a) == Distance(s, t);
    var b :| Turns(b, t, u) && Cost(b) == Distance(t, u);
    var c := Compose(a, s, t, b, u);
  }

  /** The nested loops over a matrix whose first row and column are still to be set. */
  method FillMatrix(s1: string, s2: string, matrix: array2<int>)
    requires matrix.Length0 == |s1| + 1 && matrix.Length1 == |s2| + 1
    modifies matrix
    ensures forall k, l {:trigger matrix[k, l]} | 0 <= k <= |s1| && 0 <= l <= |s2| :: matrix[k, l] == Cell(s1, k, s2, l)
  {
    for i := 0 to |s1| + 1
      invariant forall k | 0 <= k < i :: matrix[k, 0] == k
    {
      matrix[i, 0] := i;
    }
    for j := 0 to |s2| + 1
      invariant forall k | 0 <= k <= |s1| :: matrix[k, 0] == k
      invariant forall l | 0 <= l < j :: matrix[0, l] == l
    {
      matrix[0, j] := j;
    }
    for i := 1 to |s1| + 1
      invariant forall k | 0 <= k <= |s1| :: matrix[k, 0] == k
      invariant forall k, l {:trigger matrix[k, l]} | 0 <= k < i && 0 <= l <= |s2| :: matrix[k, l] == Cell(s1, k, s2, l)
    {
      for j := 1 to |s2| + 1
        invariant forall k | 0 <= k <= |s1| :: matrix[k, 0] == k
        invariant forall k, l {:trigger matrix[k, l]} | 0 <= k < i && 0 <= l <= |s2| ::
            matrix[k, l] == Cell(s1, k, s2, l)
        invariant forall l {:trigger matrix[i, l]} | 0 <= l < j :: matrix[i, l] == Cell(s1, i, s2, l)
      {
        var cost := 1;
        if s1[i - 1] == s2[j - 1] {
          cost := 0;
        }
        matrix[i, j] := Min3(matrix[i - 1, j] + 1, matrix[i, j - 1] + 1, matrix[i - 1, j - 1] + cost);
      }
    }
  }

  /** levenshteinDistance: the least cost over all edit scripts. */
  method LevenshteinDistance(s1: string, s2: string) returns (d: int)
    ensures IsDistance(d, s1, s2)
    ensures d == Distance(s1, s2)
  {
    DistanceIsLeast(s1, s2);
    if |s1| == 0 {
      return |s2|;
    }
    if |s2| == 0 {
      return |s1|;
    }
    var matrix := new int[|s1| + 1, |s2| + 1];
    FillMatrix(s1, s2, matrix);
    d := matrix[|s1|, |s2|];
  }
}
