/** Byte strings and the library calls the program makes on them.

    A `string` stands for the bytes of a Go string, one `char` a byte; letters
    and white space are the ASCII ones. */
module Text {
  import opened Collections

  lemma Regroup(a: string, b: string, c: string)
    ensures a + (b + c) == (a + b) + c
  {
  }

  predicate IsSpace(c: char) {
    c as int in {9, 10, 11, 12, 13, 32}
  }

  const SPACES: set<char> := {9 as char, 10 as char, 11 as char, 12 as char, 13 as char, 32 as char}

  predicate AllIn(s: string, cut: set<char>) {
    forall i | 0 <= i < |s| :: s[i] in cut
  }

  predicate Free(s: string, forbidden: set<char>) {
    forall i | 0 <= i < |s| :: s[i] !in forbidden
  }

  function TrimLeft(s: string, cut: set<char>): string {
    if s != "" && s[0] in cut then TrimLeft(s[1..], cut) else s
  }

  function TrimRight(s: string, cut: set<char>): string {
    if s != "" && s[|s| - 1] in cut then TrimRight(s[..|s| - 1], cut) else s
  }

  /** strings.Trim: `s` without the cut characters at its ends. */
  function Trim(s: string, cut: set<char>): string {
    TrimRight(TrimLeft(s, cut), cut)
  }

  /** `middle` is what is left of `s` after dropping cut characters, and nothing else, from both ends. */
  ghost predicate IsTrimmed(s: string, cut: set<char>, middle: string) {
    && (middle != "" ==> middle[0] !in cut && middle[|middle| - 1] !in cut)
    && exists before, after | AllIn(before, cut) && AllIn(after, cut) :: s == before + middle + after
  }

  lemma {:induction false} TrimLeftDrops(s: string, cut: set<char>) returns (before: string)
    ensures var r := TrimLeft(s, cut);
            AllIn(before, cut) && s == before + r && (r != "" ==> r[0] !in cut)
  {
    if s != "" && s[0] in cut {
      var tail := TrimLeftDrops(s[1..], cut);
      before := [s[0]] + tail;
    } else {
      before := "";
    }
  }

  lemma {:induction false} TrimRightDrops(s: string, cut: set<char>) returns (after: string)
    ensures var r := TrimRight(s, cut);
            AllIn(after, cut) && s == r + after && (r != "" ==> r[|r| - 1] !in cut)
  {
    if s != "" && s[|s| - 1] in cut {
      var front := TrimRightDrops(s[..|s| - 1], cut);
      after := front + [s[|s| - 1]];
    } else {
      after := "";
    }
  }

  lemma TrimKeepsMiddle(s: string, cut: set<char>)
    ensures IsTrimmed(s, cut, Trim(s, cut))
    ensures Free(s, cut) ==> Trim(s, cut) == s
  {
    var before := TrimLeftDrops(s, cut);
    var left := TrimLeft(s, cut);
    var after := TrimRightDrops(left, cut);
    var r := Trim(s, cut);
    assert s == before + r + after;
    assert r != "" ==> r[0] == left[0];
  }

  function TrimSpace(s: string): string {
    Trim(s, SPACES)
  }

  lemma TrimSpaceTwice(s: string)
    ensures TrimSpace(TrimSpace(s)) == TrimSpace(s)
  {
    TrimKeepsMiddle(s, SPACES);
  }

  function LowerChar(c: char): char {
    if 'A' <= c <= 'Z' then (c as int + 32) as char else c
  }

  function ToLower(s: string): string {
    if s == "" then "" else [LowerChar(s[0])] + ToLower(s[1..])
  }

  /** Lower-casing moves the letters `A` to `Z` by 32 and leaves every other character where it is. */
  lemma {:induction false} ToLowerAt(s: string)
    ensures |ToLower(s)| == |s|
    ensures forall i | 0 <= i < |s| ::
              ToLower(s)[i] == if 'A' <= s[i] <= 'Z' then (s[i] as int + 32) as char else s[i]
  {
    if s != "" {
      ToLowerAt(s[1..]);
    }
  }

  /** Trimmed and lower-cased: the form in which names are compared. */
  function Fold(s: string): string {
    ToLower(TrimSpace(s))
  }

  /** `folded` is `middle` with its letters in lower case. */
  ghost predicate IsLowered(middle: string, folded: string) {
    && |folded| == |middle|
    && forall i | 0 <= i < |middle| ::
         folded[i] == if 'A' <= middle[i] <= 'Z' then (middle[i] as int + 32) as char else middle[i]
  }

  /** Folding takes off the white space at both ends and lower-cases what is left. */
  lemma FoldMeans(s: string) returns (middle: string)
    ensures IsTrimmed(s, {'\t', '\n', 11 as char, 12 as char, '\r', ' '}, middle) && IsLowered(middle, Fold(s))
  {
    middle := TrimSpace(s);
    TrimKeepsMiddle(s, SPACES);
    ToLowerAt(middle);
    assert SPACES == {'\t', '\n', 11 as char, 12 as char, '\r', ' '};
  }

  predicate EqualFold(a: string, b: string) {
    ToLower(a) == ToLower(b)
  }

  predicate OccursAt(s: string, sub: string, i: int) {
    0 <= i <= |s| - |sub| && s[i..i + |sub|] == sub
  }

  /** strings.Index: the first position where `sub` occurs. */
  function Index(s: string, sub: string): (r: Option<nat>)
    ensures r.Some? ==> r.value + |sub| <= |s|
  {
    IndexFrom(s, sub, 0)
  }

  function IndexFrom(s: string, sub: string, from: nat): (r: Option<nat>)
    ensures r.Some? ==> from <= r.value && OccursAt(s, sub, r.value)
    decreases |s| - from
  {
    if from > |s| - |sub| then None
    else if OccursAt(s, sub, from) then Some(from)
    else IndexFrom(s, sub, from + 1)
  }

  lemma {:induction false} IndexFromFirst(s: string, sub: string, from: nat)
    ensures match IndexFrom(s, sub, from)
            case Some(r) => forall i | from <= i < r :: !OccursAt(s, sub, i)
            case None => forall i | from <= i :: !OccursAt(s, sub, i)
    decreases |s| - from
  {
    if from <= |s| - |sub| && !OccursAt(s, sub, from) {
      IndexFromFirst(s, sub, from + 1);
    }
  }

  lemma IndexIsFirst(s: string, sub: string)
    ensures match Index(s, sub)
            case Some(r) => OccursAt(s, sub, r) && forall i | 0 <= i < r :: !OccursAt(s, sub, i)
            case None => forall i :: !OccursAt(s, sub, i)
  {
    IndexFromFirst(s, sub, 0);
  }

  predicate Contains(s: string, sub: string) {
    Index(s, sub).Some?
  }

  lemma ContainsMeans(s: string, sub: string)
    ensures Contains(s, sub) <==> exists before, after :: s == before + sub + after
  {
    IndexIsFirst(s, sub);
    if Contains(s, sub) {
      var i := Index(s, sub).value;
      assert s == s[..i] + sub + s[i + |sub|..];
    }
    if before, after :| s == before + sub + after {
      assert s[|before|..|before| + |sub|] == sub;
      assert OccursAt(s, sub, |before|);
    }
  }

  /** strings.Split for a non-empty separator. */
  function Split(s: string, sep: string): (parts: seq<string>)
    requires sep != ""
    ensures parts != []
    decreases |s|
  {
    match Index(s, sep)
    case None => [s]
    case Some(i) => [s[..i]] + Split(s[i + |sep|..], sep)
  }

  /** The pieces of a split hold no separator and, joined with it, give the text back. */
  lemma {:induction false} SplitThenJoin(s: string, sep: string)
    requires sep != ""
    ensures Join(Split(s, sep), sep) == s
    ensures forall k | 0 <= k < |Split(s, sep)| :: !Contains(Split(s, sep)[k], sep)
    decreases |s|
  {
    IndexIsFirst(s, sep);
    match Index(s, sep)
    case None =>
    case Some(i) =>
      SplitThenJoin(s[i + |sep|..], sep);
      assert Split(s, sep)[1..] == Split(s[i + |sep|..], sep);
      assert s == s[..i] + sep + s[i + |sep|..];
      IndexIsFirst(s[..i], sep);
      assert forall k | OccursAt(s[..i], sep, k) :: OccursAt(s, sep, k);
  }

  function Join(parts: seq<string>, sep: string): string {
    if parts == [] then ""
    else if |parts| == 1 then parts[0]
    else parts[0] + sep + Join(parts[1..], sep)
  }

  /** A number in decimal, as %d writes it. */
  function Decimal(n: nat): string {
    if n < 10 then [('0' as int + n) as char] else Decimal(n / 10) + [('0' as int + n % 10) as char]
  }

  predicate IsDigits(s: string) {
    s != "" && forall i | 0 <= i < |s| :: '0' <= s[i] <= '9'
  }

  /** The number a decimal text denotes. */
  ghost function Value(digits: string): int {
    if digits == "" then 0
    else 10 * Value(digits[..|digits| - 1]) + (digits[|digits| - 1] as int - '0' as int)
  }

  lemma {:induction false} DecimalDenotes(n: nat)
    ensures Value(Decimal(n)) == n && IsDigits(Decimal(n)) && (n > 0 ==> Decimal(n)[0] != '0')
  {
    if n < 10 {
      assert Value("") == 0;
      assert Decimal(n)[..0] == "";
    } else {
      DecimalDenotes(n / 10);
      assert Decimal(n)[..|Decimal(n)| - 1] == Decimal(n / 10);
    }
  }

  /** `s[i..j]` is a maximal run of non-space characters. */
  predicate IsWordAt(s: string, i: int, j: int) {
    && 0 <= i < j <= |s|
    && (forall k | i <= k < j :: !IsSpace(s[k]))
    && (i == 0 || IsSpace(s[i - 1]))
    && (j == |s| || IsSpace(s[j]))
  }

  function WordEnd(s: string, from: nat): (j: nat)
    requires from <= |s|
    ensures from <= j <= |s| && (forall k | from <= k < j :: !IsSpace(s[k])) && (j == |s| || IsSpace(s[j]))
    decreases |s| - from
  {
    if from == |s| || IsSpace(s[from]) then from else WordEnd(s, from + 1)
  }

  /** strings.Fields from position `from`, which starts a word or a run of spaces. */
  function FieldsFrom(s: string, from: nat): (words: seq<string>)
    requires from <= |s|
    decreases |s| - from
  {
    if from == |s| then []
    else if IsSpace(s[from]) then FieldsFrom(s, from + 1)
    else
      var j := WordEnd(s, from);
      [s[from..j]] + FieldsFrom(s, j)
  }

  /** strings.Fields: the words of `s` in order. */
  function Fields(s: string): seq<string> {
    FieldsFrom(s, 0)
  }

  lemma {:induction false} FieldsFromAreWords(s: string, from: nat, w: string)
    requires from <= |s| && (from == 0 || from == |s| || IsSpace(s[from - 1]) || IsSpace(s[from]))
    ensures w in FieldsFrom(s, from) <==> exists i, j | from <= i && IsWordAt(s, i, j) :: s[i..j] == w
    decreases |s| - from
  {
    if from == |s| {
    } else if IsSpace(s[from]) {
      FieldsFromAreWords(s, from + 1, w);
    } else {
      var e := WordEnd(s, from);
      FieldsFromAreWords(s, e, w);
      assert IsWordAt(s, from, e);
      assert forall i, j | from <= i && IsWordAt(s, i, j) :: i >= e || (i == from && j == e);
    }
  }

  /** Fields yields exactly the maximal runs of non-space characters. */
  lemma FieldsAreWords(s: string, w: string)
    ensures w in Fields(s) <==> exists i, j | IsWordAt(s, i, j) :: s[i..j] == w
  {
    FieldsFromAreWords(s, 0, w);
    assert forall i, j | IsWordAt(s, i, j) :: 0 <= i;
  }
}
