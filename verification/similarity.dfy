/** How alike two incidents are: five weighted comparisons of their root-cause
    analyses, a weaker fallback when an analysis is missing, and time decay.
    Floating-point numbers are real numbers here. */
module Similarity {
  import opened Collections
  import opened Text
  import opened EditDistance

  datatype Analysis = Analysis(
    component: string, category: string, pattern: string,
    dependency: string, errorSignature: string, fixSummary: string)

  datatype Incident = Incident(
    id: string, service: string, title: string, summary: string, severity: string,
    createdAt: int, analysis: Option<Analysis>, topErrors: Option<seq<string>>)

  /** The tables the comparisons consult. What follows holds of any tables; the program's own are SERVICE_LEXICON. */
  datatype Lexicon = Lexicon(aliases: map<string, seq<string>>, stopWords: set<string>)

  const SERVICE_LEXICON := Lexicon(
    map[
      "billing_api" := ["billing-service", "billing", "billing-api"],
      "postgres_db" := ["postgres", "postgresql", "postgres-db"],
      "redis_cache" := ["redis", "redis-cache"],
      "auth_service" := ["auth", "auth-service", "authentication"],
      "payment_api" := ["payment", "payment-service", "payment-api"],
      "notification" := ["notifier", "notification-service"]
    ],
    {"the", "a", "an", "and", "or", "but", "in", "on", "at", "to", "for", "of", "with", "by"})

  // ----- component names -----

  predicate ListedUnder(lex: Lexicon, key: string, name: string) {
    key in lex.aliases && name in lex.aliases[key]
  }

  predicate AreAliases(lex: Lexicon, c1: string, c2: string) {
    || ListedUnder(lex, c1, c2)
    || ListedUnder(lex, c2, c1)
    || exists key | key in lex.aliases :: ListedUnder(lex, key, c1) && ListedUnder(lex, key, c2)
  }

  /** No name is listed under two keys, and none is a key itself. */
  ghost predicate OneServiceEach(lex: Lexicon) {
    && (forall k1, k2, name | ListedUnder(lex, k1, name) && ListedUnder(lex, k2, name) :: k1 == k2)
    && (forall key, name | ListedUnder(lex, key, name) :: name !in lex.aliases)
  }

  /** The program's own aliases fall into classes, one for each service: an alias of an alias is one. */
  lemma AliasesOfOneService(a: string, b: string, c: string)
    requires AreAliases(SERVICE_LEXICON, a, b) && AreAliases(SERVICE_LEXICON, b, c)
    ensures a == c || AreAliases(SERVICE_LEXICON, a, c)
  {
    ServicesApart();
  }

  lemma ServicesApart()
    ensures OneServiceEach(SERVICE_LEXICON)
  {
    forall key, name | ListedUnder(SERVICE_LEXICON, key, name)
      ensures |name| > 1 && |key| > 1 && name[0] == key[0] && name[1] == key[1]
      ensures name !in SERVICE_LEXICON.aliases
    {
      NamesBegin(key, name);
    }
    forall x, y | x in SERVICE_LEXICON.aliases && y in SERVICE_LEXICON.aliases && x != y
      ensures |x| > 1 && |y| > 1 && (x[0] != y[0] || x[1] != y[1])
    {
      KeysDiffer(x, y);
    }
  }

  lemma KeysDiffer(x: string, y: string)
    requires x in SERVICE_LEXICON.aliases && y in SERVICE_LEXICON.aliases && x != y
    ensures |x| > 1 && |y| > 1 && (x[0] != y[0] || x[1] != y[1])
  {
  }

  lemma NamesBegin(key: string, name: string)
    requires ListedUnder(SERVICE_LEXICON, key, name)
    ensures |name| > 1 && |key| > 1 && name[0] == key[0] && name[1] == key[1]
    ensures name !in SERVICE_LEXICON.aliases
  {
  }

  /** compareComponents: 0 for no match, otherwise a score above 0.7. */
  function CompareComponents(lex: Lexicon, comp1: string, comp2: string): (score: real)
    ensures score == 0.0 || 0.7 < score <= 1.0
  {
    if comp1 == "" || comp2 == "" then 0.0
    else
      var c1, c2 := Fold(comp1), Fold(comp2);
      if c1 == c2 then 1.0
      else if AreAliases(lex, c1, c2) then 0.95
      else if Contains(c1, c2) || Contains(c2, c1) then 0.9
      else
        var maxLen := Max(|c1|, |c2|) as real;
        if maxLen == 0.0 then 0.0
        else
          var similarity := 1.0 - Distance(c1, c2) as real / maxLen;
          if similarity > 0.7 then similarity else 0.0
  }

  lemma CompareComponentsSymmetric(lex: Lexicon, comp1: string, comp2: string)
    ensures CompareComponents(lex, comp1, comp2) == CompareComponents(lex, comp2, comp1)
  {
    Symmetric(Fold(comp1), Fold(comp2));
  }

  /** A full score means the two names, both given, agree once trimmed and lower-cased. */
  lemma CompareComponentsFull(lex: Lexicon, comp1: string, comp2: string)
    ensures CompareComponents(lex, comp1, comp2) == 1.0
       <==> comp1 != "" && comp2 != "" && Fold(comp1) == Fold(comp2)
  {
    ZeroIffEqual(Fold(comp1), Fold(comp2));
  }

  /** Two names match at all when they are equal, aliases, one inside the other,
      or fewer than three edits per ten characters apart. */
  lemma CompareComponentsMatch(lex: Lexicon, comp1: string, comp2: string)
    ensures CompareComponents(lex, comp1, comp2) > 0.0
       <==> && comp1 != "" && comp2 != ""
            && (var c1, c2 := Fold(comp1), Fold(comp2);
                c1 == c2 || AreAliases(lex, c1, c2) || Contains(c1, c2) || Contains(c2, c1)
                || 10 * Distance(c1, c2) < 3 * Max(|c1|, |c2|))
  {
    var c1, c2 := Fold(comp1), Fold(comp2);
    var d, m := Distance(c1, c2) as real, Max(|c1|, |c2|) as real;
    if m > 0.0 {
      Ratio(d, m);
    }
    Bounds(c1, c2);
  }

  lemma Ratio(d: real, m: real)
    requires m > 0.0
    ensures 1.0 - d / m > 0.7 <==> 10.0 * d < 3.0 * m
    ensures 1.0 - d / m > 0.8 <==> 5.0 * d < m
    ensures (1.0 - d / m) * m == m - d
  {
    var q := d / m;
    assert q * m == d;
    SignOfProduct(q - 0.3, m);
    SignOfProduct(q - 0.2, m);
    Times(q, 0.3, m);
    Times(q, 0.2, m);
    Times(1.0, q, m);
  }

  lemma Times(a: real, b: real, m: real)
    ensures (a - b) * m == a * m - b * m
  {
  }

  /** Both are names of one service: its key, or listed under it. */
  ghost predicate OfOneService(lex: Lexicon, c1: string, c2: string) {
    exists key | key in lex.aliases :: c1 in [key] + lex.aliases[key] && c2 in [key] + lex.aliases[key]
  }

  lemma AliasesAreOfOneService(lex: Lexicon, c1: string, c2: string)
    requires c1 != c2
    ensures AreAliases(lex, c1, c2) <==> OfOneService(lex, c1, c2)
  {
    if key :| key in lex.aliases && ListedUnder(lex, key, c1) && ListedUnder(lex, key, c2) {
      assert c1 in [key] + lex.aliases[key] && c2 in [key] + lex.aliases[key];
    }
    if ListedUnder(lex, c1, c2) {
      assert c1 in [c1] + lex.aliases[c1] && c2 in [c1] + lex.aliases[c1];
    }
    if ListedUnder(lex, c2, c1) {
      assert c1 in [c2] + lex.aliases[c2] && c2 in [c2] + lex.aliases[c2];
    }
  }

  /** The share of the longer name that needs no edit. */
  lemma EditShare(edits: nat, longer: nat)
    requires longer > 0
    ensures var share := 1.0 - edits as real / longer as real;
            && (share > 0.7 <==> 10 * edits < 3 * longer) && (share > 0.8 <==> 5 * edits < longer)
            && share * longer as real == (longer - edits) as real
  {
    Ratio(edits as real, longer as real);
  }

  /** What each way of matching is worth: equal names in full, two names of one service 0.95,
      one name inside the other 0.9, and otherwise the share of the longer name that needs no
      edit, if that is more than seven tenths. */
  lemma ComponentWorth(lex: Lexicon, comp1: string, comp2: string)
    ensures var c1, c2, score := Fold(comp1), Fold(comp2), CompareComponents(lex, comp1, comp2);
            if comp1 == "" || comp2 == "" then score == 0.0
            else if c1 == c2 then score == 1.0
            else if OfOneService(lex, c1, c2) then score == 0.95
            else if Contains(c1, c2) || Contains(c2, c1) then score == 0.9
            else IsEditShare(score, Distance(c1, c2), Max(|c1|, |c2|))
  {
    var c1, c2 := Fold(comp1), Fold(comp2);
    if c1 != c2 {
      AliasesAreOfOneService(lex, c1, c2);
      if comp1 != "" && comp2 != "" && !AreAliases(lex, c1, c2) && !Contains(c1, c2) && !Contains(c2, c1) {
        FuzzyWorth(lex, comp1, comp2);
      }
    }
  }

  ghost predicate IsEditShare(score: real, edits: nat, longer: nat) {
    if 10 * edits < 3 * longer then score * longer as real == (longer - edits) as real else score == 0.0
  }

  lemma FuzzyWorth(lex: Lexicon, comp1: string, comp2: string)
    requires var c1, c2 := Fold(comp1), Fold(comp2);
             && comp1 != "" && comp2 != "" && c1 != c2
             && !AreAliases(lex, c1, c2) && !Contains(c1, c2) && !Contains(c2, c1)
    ensures IsEditShare(CompareComponents(lex, comp1, comp2), Distance(Fold(comp1), Fold(comp2)),
                        Max(|Fold(comp1)|, |Fold(comp2)|))
  {
    ShareOrNothing(CompareComponents(lex, comp1, comp2), Distance(Fold(comp1), Fold(comp2)),
                   Max(|Fold(comp1)|, |Fold(comp2)|));
  }

  lemma ShareOrNothing(score: real, edits: nat, longer: nat)
    requires longer > 0
    requires var share := 1.0 - edits as real / longer as real; score == if share > 0.7 then share else 0.0
    ensures IsEditShare(score, edits, longer)
  {
    EditShare(edits, longer);
  }

  /** The names are close enough to be reported as a match. */
  ghost predicate SameComponent(lex: Lexicon, comp1: string, comp2: string) {
    var c1, c2 := Fold(comp1), Fold(comp2);
    && comp1 != "" && comp2 != ""
    && (|| c1 == c2 || OfOneService(lex, c1, c2) || Contains(c1, c2) || Contains(c2, c1)
        || 5 * Distance(c1, c2) < Max(|c1|, |c2|))
  }

  lemma ComponentMatched(lex: Lexicon, comp1: string, comp2: string)
    ensures CompareComponents(lex, comp1, comp2) > 0.8 <==> SameComponent(lex, comp1, comp2)
  {
    var c1, c2 := Fold(comp1), Fold(comp2);
    if c1 != c2 {
      AliasesAreOfOneService(lex, c1, c2);
      EditShare(Distance(c1, c2), Max(|c1|, |c2|));
    }
  }

  /** The program's own table has the notifier as a name of the notification service. */
  lemma NotifierMatched(comp1: string, comp2: string)
    requires Fold(comp1) == "notifier" && Fold(comp2) == "notification-service"
    ensures CompareComponents(SERVICE_LEXICON, comp1, comp2) == 0.95
  {
    var c1, c2 := Fold(comp1), Fold(comp2);
    assert c1 != "" && c2 != "" && c1 != c2 by {
      assert |c1| != |c2|;
    }
    assert comp1 != "" && comp2 != "" by {
      assert Fold("") == "";
    }
    assert "notification" in SERVICE_LEXICON.aliases;
    var names := SERVICE_LEXICON.aliases["notification"];
    assert names[0] == c1 && names[1] == c2;
    assert ListedUnder(SERVICE_LEXICON, "notification", c1) && ListedUnder(SERVICE_LEXICON, "notification", c2);
  }

  // ----- dependencies and signatures -----

  function CompareDependencies(lex: Lexicon, dep1: string, dep2: string): (score: real)
    ensures 0.0 <= score <= 1.0
  {
    if dep1 == "" || dep2 == "" then 0.0
    else
      var d1, d2 := Fold(dep1), Fold(dep2);
      if d1 == d2 then 1.0
      else
        var parts1, parts2 := Split(d1, "->"), Split(d2, "->");
        if |parts1| == 2 && |parts2| == 2 then
          CompareComponents(lex, parts1[1], parts2[1]) * 0.7 + CompareComponents(lex, parts1[0], parts2[0]) * 0.3
        else 0.0
  }

  /** The two dependencies are the same text, or name the same two ends. */
  ghost predicate SameDependency(dep1: string, dep2: string) {
    var ends1, ends2 := Split(Fold(dep1), "->"), Split(Fold(dep2), "->");
    && dep1 != "" && dep2 != ""
    && (|| Fold(dep1) == Fold(dep2)
        || (&& |ends1| == 2 && |ends2| == 2
            && ends1[0] != "" && ends2[0] != "" && Fold(ends1[0]) == Fold(ends2[0])
            && ends1[1] != "" && ends2[1] != "" && Fold(ends1[1]) == Fold(ends2[1])))
  }

  /** Dependencies that differ are worth seven tenths of what their targets are and three
      tenths of what their sources are, if each is written with one arrow, and else nothing. */
  lemma DependencyWorth(lex: Lexicon, dep1: string, dep2: string)
    ensures var ends1, ends2 := Split(Fold(dep1), "->"), Split(Fold(dep2), "->");
            && 10.0 * CompareDependencies(lex, dep1, dep2)
            == if dep1 == "" || dep2 == "" then 0.0
            else if Fold(dep1) == Fold(dep2) then 10.0
            else if |ends1| != 2 || |ends2| != 2 then 0.0
            else 7.0 * CompareComponents(lex, ends1[1], ends2[1]) + 3.0 * CompareComponents(lex, ends1[0], ends2[0])
  {
  }

  lemma CompareDependenciesFull(lex: Lexicon, dep1: string, dep2: string)
    ensures CompareDependencies(lex, dep1, dep2) == 1.0 <==> SameDependency(dep1, dep2)
  {
    var ends1, ends2 := Split(Fold(dep1), "->"), Split(Fold(dep2), "->");
    if |ends1| == 2 && |ends2| == 2 {
      CompareComponentsFull(lex, ends1[0], ends2[0]);
      CompareComponentsFull(lex, ends1[1], ends2[1]);
    }
  }

  lemma CompareDependenciesSymmetric(lex: Lexicon, dep1: string, dep2: string)
    ensures CompareDependencies(lex, dep1, dep2) == CompareDependencies(lex, dep2, dep1)
  {
    var parts1, parts2 := Split(Fold(dep1), "->"), Split(Fold(dep2), "->");
    if |parts1| == 2 && |parts2| == 2 {
      CompareComponentsSymmetric(lex, parts1[0], parts2[0]);
      CompareComponentsSymmetric(lex, parts1[1], parts2[1]);
    }
  }

  function CompareErrorSignatures(sig1: string, sig2: string): (score: real)
    ensures score == 1.0 <==> sig1 != "" && sig2 != "" && Fold(sig1) == Fold(sig2)
    ensures score in {0.0, 0.8, 1.0}
    ensures score > 0.0
       <==> && sig1 != "" && sig2 != ""
            && (Contains(Fold(sig1), Fold(sig2)) || Contains(Fold(sig2), Fold(sig1)))
  {
    assert Fold(sig1) == Fold(sig2) ==> Contains(Fold(sig1), Fold(sig2)) by {
      assert OccursAt(Fold(sig1), Fold(sig1), 0);
      IndexIsFirst(Fold(sig1), Fold(sig1));
    }
    if sig1 == "" || sig2 == "" then 0.0
    else
      var s1, s2 := Fold(sig1), Fold(sig2);
      if s1 == s2 then 1.0
      else if Contains(s1, s2) || Contains(s2, s1) then 0.8
      else 0.0
  }

  // ----- patterns -----

  const PUNCTUATION: set<char> := {'.', ',', ';', ':', '!', '?', '\"', '\''}

  predicate Kept(lex: Lexicon, term: string) {
    |term| > 2 && term !in lex.stopWords
  }

  ghost function TermsOf(lex: Lexicon, words: seq<string>): set<string> {
    if words == [] then {}
    else
      var front, term := words[..|words| - 1], Trim(words[|words| - 1], PUNCTUATION);
      TermsOf(lex, front) + if Kept(lex, term) then {term} else {}
  }

  /** The terms of a pattern. */
  ghost function Terms(lex: Lexicon, pattern: string): set<string> {
    TermsOf(lex, Fields(ToLower(pattern)))
  }

  lemma {:induction false} TermsOfWords(lex: Lexicon, words: seq<string>, term: string)
    ensures term in TermsOf(lex, words) <==> Kept(lex, term) && exists w | w in words :: Trim(w, PUNCTUATION) == term
  {
    if words != [] {
      var front, last := words[..|words| - 1], words[|words| - 1];
      TermsOfWords(lex, front, term);
      assert words == front + [last];
    }
  }

  /** The terms are the words of the lower-cased pattern that, stripped of punctuation, have
      more than two characters and are no stop words. */
  lemma TermsAreKeptWords(lex: Lexicon, pattern: string, term: string)
    ensures term in Terms(lex, pattern)
       <==> && |term| > 2 && term !in lex.stopWords
            && exists i, j | IsWordAt(ToLower(pattern), i, j) ::
                 Trim(ToLower(pattern)[i..j], {'.', ',', ';', ':', '!', '?', '\"', '\''}) == term
  {
    var p := ToLower(pattern);
    TermsOfWords(lex, Fields(p), term);
    forall i, j | IsWordAt(p, i, j)
      ensures p[i..j] in Fields(p)
    {
      FieldsAreWords(p, p[i..j]);
    }
    forall w | w in Fields(p)
      ensures exists i, j | IsWordAt(p, i, j) :: p[i..j] == w
    {
      FieldsAreWords(p, w);
    }
  }

  method ExtractTerms(lex: Lexicon, pattern: string) returns (terms: map<string, bool>)
    ensures terms.Keys == Terms(lex, pattern)
    ensures forall term | term in terms :: terms[term]
  {
    terms := map[];
    var words := Fields(ToLower(pattern));
    for n := 0 to |words|
      invariant terms.Keys == TermsOf(lex, words[..n])
      invariant forall term | term in terms :: terms[term]
    {
      var word := Trim(words[n], PUNCTUATION);
      if |word| > 2 && word !in lex.stopWords {
        terms := terms[word := true];
      }
      assert words[..n + 1][..n] == words[..n];
    }
    assert words[..|words|] == words;
  }

  /** The Jaccard index of two term sets. */
  ghost function Jaccard(a: set<string>, b: set<string>): (index: real)
    ensures 0.0 <= index <= 1.0
  {
    if a == {} || b == {} then 0.0
    else
      SubsetSize(a * b, a + b);
      Quotient(|a * b| as real, |a + b| as real);
      |a * b| as real / |a + b| as real
  }

  lemma Quotient(n: real, d: real)
    requires 0.0 <= n <= d && d > 0.0
    ensures 0.0 <= n / d <= 1.0 && (n / d == 1.0 <==> n == d)
  {
    var q := n / d;
    assert q * d == n && (q - 1.0) * d == n - d;
    SignOfProduct(-q, d);
    SignOfProduct(q - 1.0, d);
  }

  lemma SignOfProduct(x: real, d: real)
    requires d > 0.0
    ensures x * d <= 0.0 <==> x <= 0.0
    ensures x * d == 0.0 <==> x == 0.0
  {
  }

  /** The index exceeds so many tenths exactly when the shared terms are more than so many tenths of all. */
  lemma JaccardExceeds(a: set<string>, b: set<string>, tenths: nat)
    ensures Jaccard(a, b) > tenths as real / 10.0 <==> 10 * |a * b| > tenths * |a + b|
  {
    if a == {} || b == {} {
      assert a * b == {};
    } else {
      SubsetSize(a, a + b);
      QuotientExceeds(|a * b| as real, |a + b| as real, tenths as real / 10.0);
    }
  }

  lemma QuotientExceeds(n: real, d: real, bound: real)
    requires d > 0.0
    ensures n / d > bound <==> n > bound * d
  {
    assert (n / d) * d == n;
    SignOfProduct(bound - n / d, d);
    Times(bound, n / d, d);
  }

  lemma JaccardFull(a: set<string>, b: set<string>)
    ensures Jaccard(a, b) == 1.0 <==> a == b && a != {}
  {
    if a != {} && b != {} {
      SubsetSize(a * b, a + b);
      Quotient(|a * b| as real, |a + b| as real);
      assert a * b == a + b <==> a == b;
    }
  }

  lemma JaccardSymmetric(a: set<string>, b: set<string>)
    ensures Jaccard(a, b) == Jaccard(b, a)
  {
    assert a * b == b * a && a + b == b + a;
  }

  /** patternSimilarity: the Jaccard index, counted term by term. */
  method PatternSimilarity(lex: Lexicon, pattern1: string, pattern2: string) returns (similarity: real)
    ensures similarity == Jaccard(Terms(lex, pattern1), Terms(lex, pattern2))
  {
    if pattern1 == "" || pattern2 == "" {
      return 0.0;
    }
    var terms1 := ExtractTerms(lex, pattern1);
    var terms2 := ExtractTerms(lex, pattern2);
    similarity := IndexOf(terms1, terms2);
  }

  method IndexOf(terms1: map<string, bool>, terms2: map<string, bool>) returns (index: real)
    requires forall term | term in terms2 :: terms2[term]
    ensures index == Jaccard(terms1.Keys, terms2.Keys)
  {
    assert |terms1| == |terms1.Keys| && |terms2| == |terms2.Keys|;
    if |terms1| == 0 || |terms2| == 0 {
      return 0.0;
    }
    var intersection := CountShared(terms1, terms2);
    var union := |terms1| + |terms2| - intersection;
    JaccardCounted(terms1.Keys, terms2.Keys, intersection, union);
    if union == 0 {
      return 0.0;
    }
    index := intersection as real / union as real;
  }

  /** The union is counted as both sizes less the shared terms. */
  lemma JaccardCounted(a: set<string>, b: set<string>, shared: int, union: int)
    requires a != {} && b != {} && shared == |a * b| && union == |a| + |b| - shared
    ensures union > 0 && Jaccard(a, b) == shared as real / union as real
  {
    assert |a + b| == union;
    SubsetSize(a, a + b);
  }

  /** The counting loop: map iteration visits the terms in any order. */
  method CountShared(terms1: map<string, bool>, terms2: map<string, bool>) returns (intersection: nat)
    requires forall term | term in terms2 :: terms2[term]
    ensures intersection == |terms1.Keys * terms2.Keys|
  {
    intersection := 0;
    var todo := terms1.Keys;
    ghost var shared: set<string> := {};
    while todo != {}
      invariant todo <= terms1.Keys
      invariant forall term :: term in shared <==> term in terms1 && term !in todo && term in terms2
      invariant intersection == |shared|
    {
      var term :| term in todo;
      todo := todo - {term};
      if term in terms2 && terms2[term] {
        intersection := intersection + 1;
        shared := shared + {term};
      }
    }
    assert shared == terms1.Keys * terms2.Keys;
  }

  // ----- time decay -----

  /** What 30 days of grace and a linear loss over the next 150 leave of a score. */
  function DecayFactor(ageDays: real): (factor: real)
    ensures factor >= 0.7
    ensures ageDays >= 30.0 ==> factor <= 1.0
    ensures ageDays == 30.0 ==> factor == 1.0
    ensures ageDays >= 180.0 ==> factor == 0.7
  {
    var factor := 1.0 - ((ageDays - 30.0) / 150.0) * 0.3;
    if factor < 0.7 then 0.7 else factor
  }

  /** applyTimeDecay, on the age in days. */
  function TimeDecay(score: real, ageDays: real): real {
    if ageDays < 30.0 then score else score * DecayFactor(ageDays)
  }

  /** Decay keeps between 70 and 100 percent of a score: all of it up to 30 days
      and exactly 70 percent from 180 days on. */
  lemma TimeDecayBounds(score: real, ageDays: real)
    requires score >= 0.0
    ensures 0.7 * score <= TimeDecay(score, ageDays) <= score
    ensures ageDays <= 30.0 ==> TimeDecay(score, ageDays) == score
    ensures ageDays >= 180.0 ==> TimeDecay(score, ageDays) == 0.7 * score
  {
    var factor := if ageDays < 30.0 then 1.0 else DecayFactor(ageDays);
    Share(score, factor);
    assert TimeDecay(score, ageDays) == score * factor;
  }

  lemma Share(score: real, factor: real)
    requires score >= 0.0 && 0.7 <= factor <= 1.0
    ensures 0.7 * score <= score * factor <= score
    ensures factor == 0.7 ==> score * factor == 0.7 * score
    ensures factor == 1.0 ==> score * factor == score
  {
    Scale(score, 0.7, factor);
    Scale(score, factor, 1.0);
  }

  /** From day 30 to day 180 a score loses a five hundredth of itself each day. */
  lemma DecayIsLinear(score: real, ageDays: real)
    requires 30.0 <= ageDays <= 180.0
    ensures 500.0 * TimeDecay(score, ageDays) == score * (530.0 - ageDays)
  {
    assert 500.0 * DecayFactor(ageDays) == 530.0 - ageDays;
    assert 500.0 * (score * DecayFactor(ageDays)) == score * (500.0 * DecayFactor(ageDays));
  }

  lemma DecayFactorAntitone(ageDays: real, older: real)
    requires ageDays <= older
    ensures DecayFactor(older) <= DecayFactor(ageDays)
  {
    assert (ageDays - 30.0) / 150.0 <= (older - 30.0) / 150.0;
  }

  /** An older incident never keeps more. */
  lemma TimeDecayAntitone(score: real, ageDays: real, older: real)
    requires score >= 0.0 && ageDays <= older
    ensures TimeDecay(score, older) <= TimeDecay(score, ageDays)
  {
    if ageDays < 30.0 {
      TimeDecayBounds(score, older);
    } else {
      DecayFactorAntitone(ageDays, older);
      LessKept(score, DecayFactor(older), DecayFactor(ageDays), TimeDecay(score, older), TimeDecay(score, ageDays));
    }
  }

  lemma LessKept(score: real, a: real, b: real, keptA: real, keptB: real)
    requires score >= 0.0 && a <= b && keptA == score * a && keptB == score * b
    ensures keptA <= keptB
  {
    Scale(score, a, b);
  }

  lemma Scale(score: real, a: real, b: real)
    requires score >= 0.0 && a <= b
    ensures score * a <= score * b
  {
    assert score * (b - a) >= 0.0;
  }

  // ----- the score -----

  function CategoryMatch(a: string, b: string): real {
    if a != "" && b != "" && EqualFold(a, b) then 1.0 else 0.0
  }

  /** The five comparisons of two analyses. */
  datatype Comparison = Comparison(component: real, category: real, pattern: real, dependency: real, signature: real) {
    ghost predicate Valid() {
      && 0.0 <= component <= 1.0 && category in {0.0, 1.0} && 0.0 <= pattern <= 1.0
      && 0.0 <= dependency <= 1.0 && 0.0 <= signature <= 1.0
    }

    function Weighted(): real {
      component * 0.30 + category * 0.25 + pattern * 0.20 + dependency * 0.15 + signature * 0.10
    }

    /** The names reported as matched, in their fixed order. */
    function Matched(): seq<string> {
      Flag("component", component > 0.8) + Flag("category", category == 1.0) + Flag("pattern", pattern > 0.6)
      + Flag("dependency", dependency > 0.8) + Flag("error_signature", signature > 0.8)
    }
  }

  function Flag(name: string, matches: bool): seq<string> {
    if matches then [name] else []
  }

  ghost function Compare(lex: Lexicon, a: Analysis, b: Analysis): (c: Comparison)
    ensures c.Valid()
  {
    Comparison(
      CompareComponents(lex, a.component, b.component),
      CategoryMatch(a.category, b.category),
      Jaccard(Terms(lex, a.pattern), Terms(lex, b.pattern)),
      CompareDependencies(lex, a.dependency, b.dependency),
      CompareErrorSignatures(a.errorSignature, b.errorSignature))
  }

  /** The weighted sum before decay. */
  ghost function RawScore(lex: Lexicon, a: Analysis, b: Analysis): real {
    Compare(lex, a, b).Weighted()
  }

  /** The five comparisons count 30, 25, 20, 15 and 10 percent. */
  lemma RawScoreWeights(lex: Lexicon, a: Analysis, b: Analysis)
    ensures 100.0 * RawScore(lex, a, b)
         == 30.0 * CompareComponents(lex, a.component, b.component)
            + (if a.category != "" && b.category != "" && EqualFold(a.category, b.category) then 25.0 else 0.0)
            + 20.0 * Jaccard(Terms(lex, a.pattern), Terms(lex, b.pattern))
            + 15.0 * CompareDependencies(lex, a.dependency, b.dependency)
            + 10.0 * CompareErrorSignatures(a.errorSignature, b.errorSignature)
  {
  }

  /** What is reported as matched: components that are close enough, equal categories, patterns
      that share more than six tenths of their terms, dependencies of more than eight tenths,
      and equal signatures; one signature inside the other is not enough. */
  lemma MatchedMeans(lex: Lexicon, a: Analysis, b: Analysis)
    ensures var terms1, terms2 := Terms(lex, a.pattern), Terms(lex, b.pattern);
            && Compare(lex, a, b).Matched()
            == Flag("component", SameComponent(lex, a.component, b.component))
            + Flag("category", a.category != "" && b.category != "" && EqualFold(a.category, b.category))
            + Flag("pattern", 10 * |terms1 * terms2| > 6 * |terms1 + terms2|)
            + Flag("dependency", 10.0 * CompareDependencies(lex, a.dependency, b.dependency) > 8.0)
            + Flag("error_signature", a.errorSignature != "" && b.errorSignature != ""
                                      && Fold(a.errorSignature) == Fold(b.errorSignature))
  {
    ComponentMatched(lex, a.component, b.component);
    JaccardExceeds(Terms(lex, a.pattern), Terms(lex, b.pattern), 6);
  }

  lemma RawScoreSymmetric(lex: Lexicon, a: Analysis, b: Analysis)
    ensures RawScore(lex, a, b) == RawScore(lex, b, a)
  {
    CompareComponentsSymmetric(lex, a.component, b.component);
    JaccardSymmetric(Terms(lex, a.pattern), Terms(lex, b.pattern));
    CompareDependenciesSymmetric(lex, a.dependency, b.dependency);
  }

  /** The score lies in [0, 1], and is 1 exactly when all five comparisons agree in full. */
  lemma RawScoreRange(lex: Lexicon, a: Analysis, b: Analysis)
    ensures 0.0 <= RawScore(lex, a, b) <= 1.0
    ensures RawScore(lex, a, b) == 1.0
       <==> && a.component != "" && b.component != "" && Fold(a.component) == Fold(b.component)
            && a.category != "" && b.category != "" && EqualFold(a.category, b.category)
            && Terms(lex, a.pattern) == Terms(lex, b.pattern) && Terms(lex, a.pattern) != {}
            && SameDependency(a.dependency, b.dependency)
            && a.errorSignature != "" && b.errorSignature != "" && Fold(a.errorSignature) == Fold(b.errorSignature)
  {
    CompareComponentsFull(lex, a.component, b.component);
    JaccardFull(Terms(lex, a.pattern), Terms(lex, b.pattern));
    CompareDependenciesFull(lex, a.dependency, b.dependency);
  }

  /** Against itself an incident scores 1 exactly when all five fields are filled
      and its pattern has a kept term. */
  lemma RawScoreSelf(lex: Lexicon, a: Analysis)
    ensures RawScore(lex, a, a) == 1.0
       <==> && a.component != "" && a.category != "" && Terms(lex, a.pattern) != {}
            && a.dependency != "" && a.errorSignature != ""
  {
    RawScoreRange(lex, a, a);
  }

  /** The accumulation of CalculateSimilarity over its five comparisons. */
  method Accumulate(componentMatch: real, categoryMatch: bool, patternSim: real, dependencyMatch: real,
      errorSigMatch: real)
    returns (score: real, matched: seq<string>)
    requires componentMatch >= 0.0 && patternSim >= 0.0 && dependencyMatch >= 0.0 && errorSigMatch >= 0.0
    ensures var category := if categoryMatch then 1.0 else 0.0;
            var c := Comparison(componentMatch, category, patternSim, dependencyMatch, errorSigMatch);
            score == c.Weighted() && matched == c.Matched()
  {
    score, matched := 0.0, [];
    ghost var names := Flag("component", componentMatch > 0.8);
    ghost var sum := componentMatch * 0.30;
    if componentMatch > 0.0 {
      score := score + componentMatch * 0.30;
      if componentMatch > 0.8 {
        matched := matched + ["component"];
      }
    }
    assert matched == names && score == sum;
    names, sum := names + Flag("category", categoryMatch), sum + if categoryMatch then 0.25 else 0.0;
    if categoryMatch {
      score := score + 0.25;
      matched := matched + ["category"];
    }
    assert matched == names && score == sum;
    names, sum := names + Flag("pattern", patternSim > 0.6), sum + patternSim * 0.20;
    if patternSim > 0.0 {
      score := score + patternSim * 0.20;
      if patternSim > 0.6 {
        matched := matched + ["pattern"];
      }
    }
    assert matched == names && score == sum;
    names, sum := names + Flag("dependency", dependencyMatch > 0.8), sum + dependencyMatch * 0.15;
    if dependencyMatch > 0.0 {
      score := score + dependencyMatch * 0.15;
      if dependencyMatch > 0.8 {
        matched := matched + ["dependency"];
      }
    }
    assert matched == names && score == sum;
    names, sum := names + Flag("error_signature", errorSigMatch > 0.8), sum + errorSigMatch * 0.10;
    if errorSigMatch > 0.0 {
      score := score + errorSigMatch * 0.10;
      if errorSigMatch > 0.8 {
        matched := matched + ["error_signature"];
      }
    }
  }

  /** CalculateSimilarity; a None is a nil pointer. `ageDays` is the age of `historical`. */
  method CalculateSimilarity(lex: Lexicon, current: Option<Incident>, historical: Option<Incident>, ageDays: real)
    returns (score: real, matched: seq<string>)
    ensures 0.0 <= score <= 1.0
    ensures current.None? || historical.None? ==> score == 0.0 && matched == []
    ensures current.Some? && historical.Some? && current.value.analysis.Some? && historical.value.analysis.Some? ==>
              && score == TimeDecay(RawScore(lex, current.value.analysis.value, historical.value.analysis.value),
                 ageDays)
              && matched == Compare(lex, current.value.analysis.value, historical.value.analysis.value).Matched()
    ensures current.Some? && historical.Some? && (current.value.analysis.None? || historical.value.analysis.None?) ==>
              && score == FallbackScore(lex, current.value, historical.value, ageDays) <= 0.5
              && matched == FallbackMatched(lex, current.value, historical.value)
  {
    if current.None? || historical.None? {
      return 0.0, [];
    }
    if current.value.analysis.None? || historical.value.analysis.None? {
      score, matched := FallbackSimilarity(lex, current.value, historical.value, ageDays);
      return;
    }
    var a, b := current.value.analysis.value, historical.value.analysis.value;
    var patternSim := PatternSimilarity(lex, a.pattern, b.pattern);
    score, matched := Accumulate(
      CompareComponents(lex, a.component, b.component),
      a.category != "" && b.category != "" && EqualFold(a.category, b.category),
      patternSim,
      CompareDependencies(lex, a.dependency, b.dependency),
      CompareErrorSignatures(a.errorSignature, b.errorSignature));
    RawScoreRange(lex, a, b);
    TimeDecayBounds(score, ageDays);
    score := TimeDecay(score, ageDays);
  }

  // ----- the fallback -----

  function Pay(due: bool, amount: real): real {
    if due then amount else 0.0
  }

  /** Only the historical incident has an analysis, and the current one's text names its category. */
  predicate NamesCategory(c: Incident, h: Incident) {
    && c.service == h.service && c.analysis.None? && h.analysis.Some? && h.analysis.value.category != ""
    && Contains(ToLower(c.title + " " + c.summary), ToLower(h.analysis.value.category))
  }

  /** What a shared service pays, by which side has an analysis. */
  function ServiceEvidence(c: Incident, h: Incident): (score: real)
    ensures score >= 0.0
  {
    var same := c.service == h.service;
    Pay(same && c.service != "", 0.4)
    + Pay(same && c.analysis.Some? && h.analysis.None?, 0.2)
    + Pay(same && c.analysis.None? && h.analysis.Some?, 0.3)
    + Pay(NamesCategory(c, h), 0.2)
  }

  /** How alike the first logged errors are. */
  ghost function LogMatch(lex: Lexicon, c: Incident, h: Incident): (score: real)
    ensures score >= 0.0
  {
    if c.topErrors.Some? && h.topErrors.Some? && c.topErrors.value != [] && h.topErrors.value != []
    then Jaccard(Terms(lex, c.topErrors.value[0]), Terms(lex, h.topErrors.value[0])) else 0.0
  }

  /** What each piece of evidence pays when an analysis is missing, before decay and cap. */
  ghost function FallbackEvidence(lex: Lexicon, c: Incident, h: Incident): (score: real)
    ensures score >= 0.0
  {
    var logs, titles := LogMatch(lex, c, h), Jaccard(Terms(lex, c.title), Terms(lex, h.title));
    ServiceEvidence(c, h) + Pay(logs > 0.5, logs * 0.3)
    + Pay(c.severity == h.severity, 0.1) + Pay(titles > 0.3, titles * 0.2)
  }

  /** The names the fallback reports, in their fixed order. */
  ghost function FallbackMatched(lex: Lexicon, c: Incident, h: Incident): seq<string> {
    Flag("service", c.service != "" && c.service == h.service) + Flag("category_keyword", NamesCategory(c, h))
    + Flag("log_pattern", LogMatch(lex, c, h) > 0.5)
        + Flag("title", Jaccard(Terms(lex, c.title), Terms(lex, h.title)) > 0.6)
  }

  /** The evidence after decay, capped at one half. */
  ghost function FallbackScore(lex: Lexicon, c: Incident, h: Incident, ageDays: real): real {
    var score := TimeDecay(FallbackEvidence(lex, c, h), ageDays);
    if score > 0.5 then 0.5 else score
  }

  /** The category of the historical analysis is named in the current incident's title or summary. */
  ghost predicate CategoryNamed(c: Incident, h: Incident) {
    && h.analysis.Some? && h.analysis.value.category != ""
    && Contains(ToLower(c.title + " " + c.summary), ToLower(h.analysis.value.category))
  }

  /** What the evidence is worth: a shared service that is given 0.4; a service shared with an
      analysis on one side 0.2 or 0.3, by which side it is, and 0.2 more when the current
      incident names the category of the historical analysis; first log lines that share more
      than half of their terms three tenths of the share; equal severities 0.1; and titles
      that share more than three tenths of their terms two tenths of the share. */
  lemma FallbackWorth(lex: Lexicon, c: Incident, h: Incident)
    ensures var same := c.service == h.service;
            var logs, titles := LogMatch(lex, c, h), Jaccard(Terms(lex, c.title), Terms(lex, h.title));
            && 10.0 * FallbackEvidence(lex, c, h)
            == (if same && h.service != "" then 4.0 else 0.0)
            + (if !same then 0.0
               else match (c.analysis, h.analysis)
                 case (Some(_), None) => 2.0
                 case (None, Some(_)) => if CategoryNamed(c, h) then 5.0 else 3.0
                 case _ => 0.0)
            + (if logs > 0.5 then 3.0 * logs else 0.0)
            + (if c.severity == h.severity then 1.0 else 0.0)
            + (if titles > 0.3 then 2.0 * titles else 0.0)
  {
  }

  /** The reported names, with the shares of terms spelt out. */
  lemma FallbackMatchedMeans(lex: Lexicon, c: Incident, h: Incident)
    ensures var titles1, titles2 := Terms(lex, c.title), Terms(lex, h.title);
            && FallbackMatched(lex, c, h)
            == Flag("service", c.service != "" && c.service == h.service)
            + Flag("category_keyword", c.service == h.service && c.analysis.None? && CategoryNamed(c, h))
            + Flag("log_pattern", && c.topErrors.Some? && h.topErrors.Some?
                                  && c.topErrors.value != [] && h.topErrors.value != []
                                  && ShareHalf(Terms(lex, c.topErrors.value[0]), Terms(lex, h.topErrors.value[0])))
            + Flag("title", 10 * |titles1 * titles2| > 6 * |titles1 + titles2|)
  {
    JaccardExceeds(Terms(lex, c.title), Terms(lex, h.title), 6);
    if c.topErrors.Some? && h.topErrors.Some? && c.topErrors.value != [] && h.topErrors.value != [] {
      JaccardExceeds(Terms(lex, c.topErrors.value[0]), Terms(lex, h.topErrors.value[0]), 5);
    }
  }

  ghost predicate ShareHalf(a: set<string>, b: set<string>) {
    10 * |a * b| > 5 * |a + b|
  }

  /** What the services, and the category if there is one to go by, contribute. */
  method ServiceSimilarity(current: Incident, historical: Incident) returns (score: real, matched: seq<string>)
    ensures score == ServiceEvidence(current, historical)
    ensures matched == Flag("service", current.service != "" && current.service == historical.service)
                    + Flag("category_keyword", NamesCategory(current, historical))
  {
    score, matched := 0.0, [];
    ghost var names := Flag("service", current.service != "" && current.service == historical.service);
    if current.service != "" && current.service == historical.service {
      score := score + 0.4;
      matched := matched + ["service"];
    }
    assert matched == names;
    if current.analysis.Some? && historical.analysis.None? {
      if current.service == historical.service {
        score := score + 0.2;
      }
    } else if current.analysis.None? && historical.analysis.Some? {
      if current.service == historical.service {
        score := score + 0.3;
        if historical.analysis.value.category != "" {
          var currentText := ToLower(current.title + " " + current.summary);
          var category := ToLower(historical.analysis.value.category);
          if Contains(currentText, category) {
            score := score + 0.2;
            matched := matched + ["category_keyword"];
          }
        }
      }
    }
  }

  method FallbackSimilarity(lex: Lexicon, current: Incident, historical: Incident, ageDays: real)
    returns (score: real, matched: seq<string>)
    ensures 0.0 <= score <= 0.5
    ensures score == FallbackScore(lex, current, historical, ageDays)
    ensures matched == FallbackMatched(lex, current, historical)
  {
    score, matched := ServiceSimilarity(current, historical);
    ghost var names := matched;
    ghost var logs := LogMatch(lex, current, historical);
    names := names + Flag("log_pattern", logs > 0.5);
    if current.topErrors.Some? && historical.topErrors.Some? {
      if |current.topErrors.value| > 0 && |historical.topErrors.value| > 0 {
        var patternSim := PatternSimilarity(lex, current.topErrors.value[0], historical.topErrors.value[0]);
        if patternSim > 0.5 {
          score := score + patternSim * 0.3;
          matched := matched + ["log_pattern"];
        }
      }
    }
    assert matched == names && score == ServiceEvidence(current, historical) + Pay(logs > 0.5, logs * 0.3);
    if current.severity == historical.severity {
      score := score + 0.1;
    }
    var titleSim := PatternSimilarity(lex, current.title, historical.title);
    names := names + Flag("title", titleSim > 0.6);
    if titleSim > 0.3 {
      score := score + titleSim * 0.2;
      if titleSim > 0.6 {
        matched := matched + ["title"];
      }
    }
    assert matched == names && score == FallbackEvidence(lex, current, historical);
    TimeDecayBounds(score, ageDays);
    score := TimeDecay(score, ageDays);
    if score > 0.5 {
      score := 0.5;
    }
  }

  // ----- which side has the analysis -----

  /** Of two incidents of one service both have an analysis or neither has. */
  predicate SeenAlike(a: Incident, b: Incident) {
    a.service != b.service || (a.analysis.Some? <==> b.analysis.Some?)
  }

  lemma EvidenceSymmetricExactly(lex: Lexicon, a: Incident, b: Incident)
    ensures FallbackEvidence(lex, a, b) == FallbackEvidence(lex, b, a) <==> SeenAlike(a, b)
  {
    JaccardSymmetric(Terms(lex, a.title), Terms(lex, b.title));
    if a.topErrors.Some? && b.topErrors.Some? && a.topErrors.value != [] && b.topErrors.value != [] {
      JaccardSymmetric(Terms(lex, a.topErrors.value[0]), Terms(lex, b.topErrors.value[0]));
    }
  }

  /** Decay keeps different scores apart. */
  lemma DecayInjective(x: real, y: real, ageDays: real)
    ensures TimeDecay(x, ageDays) == TimeDecay(y, ageDays) <==> x == y
  {
    if ageDays >= 30.0 {
      SignOfProduct(x - y, DecayFactor(ageDays));
    }
  }

  /** Two incidents of the same age score alike from both sides exactly when their evidence
      is the same from both sides or is hidden by the cap on both. */
  lemma FallbackSymmetricExactly(lex: Lexicon, a: Incident, b: Incident, ageDays: real)
    ensures FallbackScore(lex, a, b, ageDays) == FallbackScore(lex, b, a, ageDays)
       <==> || SeenAlike(a, b)
            || (&& TimeDecay(FallbackEvidence(lex, a, b), ageDays) >= 0.5
                && TimeDecay(FallbackEvidence(lex, b, a), ageDays) >= 0.5)
  {
    EvidenceSymmetricExactly(lex, a, b);
    DecayInjective(FallbackEvidence(lex, a, b), FallbackEvidence(lex, b, a), ageDays);
  }

  /** Within the default search window of 90 days the cap hides the difference between
      incidents of one service: with one analysis missing, both sides score one half. */
  lemma RecentFallbackIsCapped(lex: Lexicon, a: Incident, b: Incident, ageDays: real)
    requires a.service == b.service != "" && a.analysis.Some? && b.analysis.None? && ageDays <= 90.0
    ensures FallbackScore(lex, a, b, ageDays) == FallbackScore(lex, b, a, ageDays) == 0.5
  {
    DecayedEvidence(FallbackEvidence(lex, a, b), ageDays);
    DecayedEvidence(FallbackEvidence(lex, b, a), ageDays);
  }

  lemma DecayedEvidence(evidence: real, ageDays: real)
    requires evidence >= 0.6 && ageDays <= 90.0
    ensures TimeDecay(evidence, ageDays) > 0.5
  {
    if ageDays >= 30.0 {
      var factor := DecayFactor(ageDays);
      assert factor >= 0.88;
      Scale(factor, 0.6, evidence);
    }
  }

  /** No term is kept of a title of one or two characters. */
  lemma ShortTitleHasNoTerms(lex: Lexicon, title: string)
    requires |title| <= 2
    ensures Terms(lex, title) == {}
  {
    ToLowerAt(title);
    forall term
      ensures term !in Terms(lex, title)
    {
      TermsAreKeptWords(lex, title, term);
      forall i, j | IsWordAt(ToLower(title), i, j)
        ensures |Trim(ToLower(title)[i..j], PUNCTUATION)| <= 2
      {
        TrimKeepsMiddle(ToLower(title)[i..j], PUNCTUATION);
      }
    }
  }

  /** Two incidents of one service, 180 days old and of different severity, only one of
      which was analysed: the analysed one scores 0.49 for the other, which scores 0.42 for it. */
  lemma FallbackNotSymmetric(lex: Lexicon) returns (a: Incident, b: Incident)
    ensures a.service == b.service == "db" && a.title == b.title == "up"
    ensures FallbackScore(lex, a, b, 180.0) == 0.42 && FallbackScore(lex, b, a, 180.0) == 0.49
  {
    b := Incident("INC-20250102-000000", "db", "up", "", "P2", 0, None, None);
    a := b.(id := "INC-20250101-000000", severity := "P1", analysis := Some(Analysis("", "", "", "", "", "")));
    ShortTitleHasNoTerms(lex, "up");
    assert FallbackEvidence(lex, a, b) == 0.6 && FallbackEvidence(lex, b, a) == 0.7;
    assert TimeDecay(0.6, 180.0) == 0.42 && TimeDecay(0.7, 180.0) == 0.49;
  }
}
