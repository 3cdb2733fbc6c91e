/** groupByFix: similar incidents that were fixed the same way are shown as one. */
module FixGroups {
  import opened Collections
  import opened Text
  import opened Sorting
  import opened Similarity

  datatype SimilarIncident = SimilarIncident(incident: Incident, confidence: real, matchedOn: seq<string>, age: string)

  /** The text noted on the representative of a group with `extra` further members. */
  function Note(extra: nat): seq<string> {
    if extra == 0 then [] else ["(+" + Decimal(extra) + " similar)"]
  }

  /** A note tells the extra count it was written for. */
  lemma NoteTellsCount(a: nat, b: nat)
    requires Note(a) == Note(b)
    ensures a == b
  {
    DecimalDenotes(a);
    DecimalDenotes(b);
    if a > 0 && b > 0 {
      var head, tail := "(+", " similar)";
      assert Note(a)[0][|head|..|Note(a)[0]| - |tail|] == Decimal(a);
      assert Note(b)[0][|head|..|Note(b)[0]| - |tail|] == Decimal(b);
    }
  }

  function FixKey(similar: SimilarIncident): string {
    var fix := if similar.incident.analysis.Some? then Fold(similar.incident.analysis.value.fixSummary) else "";
    if fix == "" then "_no_fix_" else fix
  }

  /** The incidents with this fix, in their order. */
  ghost function Group(incidents: seq<SimilarIncident>, key: string): (group: seq<SimilarIncident>)
    ensures |group| <= |incidents|
  {
    if incidents == [] then []
    else
      var front, last := incidents[..|incidents| - 1], incidents[|incidents| - 1];
      if FixKey(last) == key then Group(front, key) + [last] else Group(front, key)
  }

  /** The first of the incidents created last. */
  ghost function MostRecent(group: seq<SimilarIncident>): SimilarIncident
    requires group != []
  {
    if |group| == 1 then group[0]
    else
      var best, last := MostRecent(group[..|group| - 1]), group[|group| - 1];
      if last.incident.createdAt > best.incident.createdAt then last else best
  }

  /** What stands for a group in the output. */
  ghost function Entry(incidents: seq<SimilarIncident>, key: string): SimilarIncident
    requires Group(incidents, key) != []
  {
    var group := Group(incidents, key);
    var best := MostRecent(group);
    best.(matchedOn := best.matchedOn + Note(|group| - 1))
  }

  /** `keys` lists every fix among the incidents once. */
  ghost predicate ListsFixes(keys: seq<string>, incidents: seq<SimilarIncident>) {
    && Distinct(keys)
    && (forall key :: key in keys <==> Group(incidents, key) != [])
  }

  lemma {:induction false} GroupMembers(incidents: seq<SimilarIncident>, key: string)
    ensures forall s :: s in Group(incidents, key) <==> s in incidents && FixKey(s) == key
  {
    if incidents != [] {
      var front, last := incidents[..|incidents| - 1], incidents[|incidents| - 1];
      GroupMembers(front, key);
      assert incidents == front + [last];
    }
  }

  lemma {:induction false} MostRecentIsGreatest(group: seq<SimilarIncident>)
    requires group != []
    ensures MostRecent(group) in group
    ensures forall s | s in group :: s.incident.createdAt <= MostRecent(group).incident.createdAt
  {
    if |group| > 1 {
      MostRecentIsGreatest(group[..|group| - 1]);
      assert group == group[..|group| - 1] + [group[|group| - 1]];
    }
  }

  /** The representative is one of the incidents with its fix, none of which was
      created later, and only its list of matches was extended. */
  lemma EntryIsMostRecent(incidents: seq<SimilarIncident>, key: string) returns (best: SimilarIncident)
    requires Group(incidents, key) != []
    ensures best in incidents && FixKey(best) == key
    ensures forall s | s in incidents && FixKey(s) == key :: s.incident.createdAt <= best.incident.createdAt
    ensures Entry(incidents, key) == best.(matchedOn := best.matchedOn + Note(|Group(incidents, key)| - 1))
    ensures FixKey(Entry(incidents, key)) == key
  {
    GroupMembers(incidents, key);
    best := MostRecent(Group(incidents, key));
    MostRecentIsGreatest(Group(incidents, key));
  }

  /** The sum, over the outputs, of one for the representative and its noted extra count. */
  ghost function Total(keys: seq<string>, incidents: seq<SimilarIncident>): nat {
    if keys == [] then 0
    else Total(keys[..|keys| - 1], incidents) + |Group(incidents, keys[|keys| - 1])|
  }

  lemma {:induction false} TotalStep(keys: seq<string>, front: seq<SimilarIncident>, last: SimilarIncident)
    requires Distinct(keys)
    ensures Total(keys, front + [last]) == Total(keys, front) + if FixKey(last) in keys then 1 else 0
  {
    if keys != [] {
      var most, key := keys[..|keys| - 1], keys[|keys| - 1];
      TotalStep(most, front, last);
      assert (front + [last])[..|front|] == front;
      assert keys == most + [key];
    }
  }

  lemma {:induction false} TotalCounts(keys: seq<string>, incidents: seq<SimilarIncident>)
    requires Distinct(keys)
    requires forall s | s in incidents :: FixKey(s) in keys
    ensures Total(keys, incidents) == |incidents|
  {
    if incidents == [] {
      TotalOfNone(keys);
    } else {
      var front, last := incidents[..|incidents| - 1], incidents[|incidents| - 1];
      assert incidents == front + [last];
      TotalCounts(keys, front);
      TotalStep(keys, front, last);
    }
  }

  lemma {:induction false} TotalOfNone(keys: seq<string>)
    ensures Total(keys, []) == 0
  {
    if keys != [] {
      TotalOfNone(keys[..|keys| - 1]);
    }
  }

  /** No incident is lost or counted twice: the representatives and their noted
      extra counts add up to the incidents that came in. */
  lemma Conservation(keys: seq<string>, incidents: seq<SimilarIncident>)
    requires ListsFixes(keys, incidents)
    ensures Total(keys, incidents) == |incidents|
  {
    forall s | s in incidents
      ensures FixKey(s) in keys
    {
      GroupMembers(incidents, FixKey(s));
      assert s in Group(incidents, FixKey(s));
    }
    TotalCounts(keys, incidents);
  }

  // ----- as many groups as incidents -----

  ghost function Keys(incidents: seq<SimilarIncident>): seq<string> {
    seq(|incidents|, i requires 0 <= i < |incidents| => FixKey(incidents[i]))
  }

  lemma {:induction false} FewerWhenRepeated<T(!new)>(s: seq<T>)
    ensures |set x | x in s| <= |s|
    ensures |set x | x in s| == |s| <==> Distinct(s)
  {
    if s != [] {
      var front, last := s[..|s| - 1], s[|s| - 1];
      FewerWhenRepeated(front);
      assert s == front + [last];
      assert (set x | x in s) == (set x | x in front) + {last};
    }
  }

  lemma KeysHaveGroups(incidents: seq<SimilarIncident>, key: string)
    ensures key in Keys(incidents) <==> Group(incidents, key) != []
  {
    GroupMembers(incidents, key);
    if Group(incidents, key) != [] {
      assert Group(incidents, key)[0] in incidents;
      var i :| 0 <= i < |incidents| && incidents[i] == Group(incidents, key)[0];
      assert Keys(incidents)[i] == key;
    }
    if i :| 0 <= i < |incidents| && Keys(incidents)[i] == key {
      assert incidents[i] in Group(incidents, key);
    }
  }

  lemma OwnEntry(incidents: seq<SimilarIncident>, i: nat)
    requires i < |incidents| && Distinct(Keys(incidents))
    ensures Group(incidents, FixKey(incidents[i])) != [] && Entry(incidents, FixKey(incidents[i])) == incidents[i]
  {
    assert Keys(incidents)[i] == FixKey(incidents[i]);
    forall j | 0 <= j < |incidents| && j != i
      ensures FixKey(incidents[j]) != FixKey(incidents[i])
    {
      assert Keys(incidents)[j] != Keys(incidents)[i];
    }
    OnlyOne(incidents, i);
    assert incidents[i].matchedOn + [] == incidents[i].matchedOn;
  }

  /** When no two incidents share a fix, the list already is its own grouping. */
  lemma NothingToGroup(incidents: seq<SimilarIncident>)
    requires Distinct(Keys(incidents))
    ensures Regroups(incidents, incidents)
  {
    forall key
      ensures key in Keys(incidents) <==> Group(incidents, key) != []
    {
      KeysHaveGroups(incidents, key);
    }
    forall k | 0 <= k < |incidents|
      ensures incidents[k] == Entry(incidents, Keys(incidents)[k])
    {
      OwnEntry(incidents, k);
    }
    EntriesRegroup(incidents, Keys(incidents), incidents);
  }

  lemma AsManyGroups(incidents: seq<SimilarIncident>, keys: set<string>)
    requires forall key :: key in keys <==> Group(incidents, key) != []
    ensures |keys| == |incidents| <==> Distinct(Keys(incidents))
  {
    forall key
      ensures key in keys <==> key in Keys(incidents)
    {
      KeysHaveGroups(incidents, key);
    }
    assert keys == set key | key in Keys(incidents);
    FewerWhenRepeated(Keys(incidents));
  }

  lemma {:induction false} NoneToGroup(incidents: seq<SimilarIncident>, key: string)
    requires forall j | 0 <= j < |incidents| :: FixKey(incidents[j]) != key
    ensures Group(incidents, key) == []
  {
    if incidents != [] {
      NoneToGroup(incidents[..|incidents| - 1], key);
    }
  }

  lemma {:induction false} OnlyOne(incidents: seq<SimilarIncident>, i: nat)
    requires i < |incidents| && forall j | 0 <= j < |incidents| && j != i ::
        FixKey(incidents[j]) != FixKey(incidents[i])
    ensures Group(incidents, FixKey(incidents[i])) == [incidents[i]]
  {
    var front := incidents[..|incidents| - 1];
    if i < |front| {
      OnlyOne(front, i);
    } else {
      NoneToGroup(front, FixKey(incidents[i]));
    }
  }

  /** The result has one entry for each fix among the incidents, and stands for all of them. */
  ghost predicate Regroups(result: seq<SimilarIncident>, incidents: seq<SimilarIncident>) {
    && ListsFixes(Keys(result), incidents)
    && (forall k | 0 <= k < |result| :: result[k] == Entry(incidents, Keys(result)[k]))
    && Total(Keys(result), incidents) == |incidents|
  }

  lemma EntriesRegroup(result: seq<SimilarIncident>, keys: seq<string>, incidents: seq<SimilarIncident>)
    requires ListsFixes(keys, incidents) && |result| == |keys|
    requires forall k | 0 <= k < |keys| :: result[k] == Entry(incidents, keys[k])
    ensures Regroups(result, incidents)
  {
    forall k | 0 <= k < |keys|
      ensures FixKey(result[k]) == keys[k]
    {
      assert keys[k] in keys;
      var best := EntryIsMostRecent(incidents, keys[k]);
    }
    assert Keys(result) == keys;
    Conservation(keys, incidents);
  }

  // ----- what a fix is, and what stands for it -----

  /** It says of no fix: it was not analysed, or its fix summary is blank, or spells what stands for none. */
  ghost predicate WithoutFix(s: SimilarIncident) {
    || s.incident.analysis.None?
    || Fold(s.incident.analysis.value.fixSummary) == ""
    || Fold(s.incident.analysis.value.fixSummary) == "_no_fix_"
  }

  /** The two were fixed the same way, or neither says how. */
  ghost predicate SameFix(a: SimilarIncident, b: SimilarIncident) {
    || (WithoutFix(a) && WithoutFix(b))
    || (&& a.incident.analysis.Some? && b.incident.analysis.Some?
        && Fold(a.incident.analysis.value.fixSummary) == Fold(b.incident.analysis.value.fixSummary))
  }

  lemma SameFixSameGroup(a: SimilarIncident, b: SimilarIncident)
    ensures FixKey(a) == FixKey(b) <==> SameFix(a, b)
  {
  }

  /** How many of the incidents have the same fix. */
  ghost function HowMany(incidents: seq<SimilarIncident>, s: SimilarIncident): nat {
    if incidents == [] then 0
    else HowMany(incidents[..|incidents| - 1], s) + One(SameFix(incidents[|incidents| - 1], s))
  }

  /** The note says how many there are besides the one shown. */
  ghost predicate Notes(note: seq<string>, extra: int) {
    if extra == 0 then note == []
    else exists digits :: note == ["(+" + digits + " similar)"] && IsDigits(digits) && Value(digits) == extra
  }

  /** Entry `e` is the i-th incident, which of those with its fix is the first to have the
      latest creation, with a note of how many others there are. */
  ghost predicate StandsFor(e: SimilarIncident, incidents: seq<SimilarIncident>, i: nat) {
    && i < |incidents|
    && (forall j: nat | j < |incidents| && SameFix(incidents[j], incidents[i]) ::
          incidents[j].incident.createdAt <= incidents[i].incident.createdAt
              && (j < i ==> incidents[j].incident.createdAt < incidents[i].incident.createdAt))
    && exists note | Notes(note, HowMany(incidents, incidents[i]) - 1) ::
         e == incidents[i].(matchedOn := incidents[i].matchedOn + note)
  }

  ghost predicate Stands(e: SimilarIncident, incidents: seq<SimilarIncident>) {
    exists i: nat :: StandsFor(e, incidents, i)
  }

  ghost predicate IsStoodFor(s: SimilarIncident, result: seq<SimilarIncident>) {
    exists k | 0 <= k < |result| :: SameFix(s, result[k])
  }

  /** One entry for each fix, standing for all the incidents with it. */
  ghost predicate IsGrouping(result: seq<SimilarIncident>, incidents: seq<SimilarIncident>) {
    && (forall k, l | 0 <= k < l < |result| :: !SameFix(result[k], result[l]))
    && (forall s | s in incidents :: IsStoodFor(s, result))
    && (forall e | e in result :: Stands(e, incidents))
  }

  lemma {:induction false} LatestAt(incidents: seq<SimilarIncident>, key: string) returns (i: nat)
    requires Group(incidents, key) != []
    ensures i < |incidents| && MostRecent(Group(incidents, key)) == incidents[i] && FixKey(incidents[i]) == key
    ensures forall j: nat | j < |incidents| && FixKey(incidents[j]) == key ::
              incidents[j].incident.createdAt <= incidents[i].incident.createdAt
                  && (j < i ==> incidents[j].incident.createdAt < incidents[i].incident.createdAt)
  {
    var front, last := incidents[..|incidents| - 1], incidents[|incidents| - 1];
    if Group(front, key) == [] {
      i := |front|;
      GroupMembers(front, key);
      assert forall j: nat | j < |front| :: incidents[j] in front;
    } else {
      i := LatestAt(front, key);
      assert forall j: nat | j < |front| :: front[j] == incidents[j];
      if FixKey(last) == key {
        assert Group(incidents, key)[..|Group(front, key)|] == Group(front, key);
        i := if last.incident.createdAt > front[i].incident.createdAt then |front| else i;
      }
    }
  }

  lemma {:induction false} GroupSize(incidents: seq<SimilarIncident>, s: SimilarIncident)
    ensures |Group(incidents, FixKey(s))| == HowMany(incidents, s)
  {
    if incidents != [] {
      GroupSize(incidents[..|incidents| - 1], s);
      SameFixSameGroup(incidents[|incidents| - 1], s);
    }
  }

  lemma NoteMeans(extra: nat)
    ensures Notes(Note(extra), extra)
  {
    DecimalDenotes(extra);
  }

  lemma EntryStandsFor(incidents: seq<SimilarIncident>, key: string) returns (i: nat)
    requires Group(incidents, key) != []
    ensures i < |incidents| && FixKey(incidents[i]) == key && StandsFor(Entry(incidents, key), incidents, i)
  {
    i := LatestAt(incidents, key);
    GroupSize(incidents, incidents[i]);
    forall j: nat | j < |incidents|
      ensures SameFix(incidents[j], incidents[i]) <==> FixKey(incidents[j]) == key
    {
      SameFixSameGroup(incidents[j], incidents[i]);
    }
    NoteMeans(|Group(incidents, key)| - 1);
  }

  lemma EntriesDiffer(result: seq<SimilarIncident>, k: nat, l: nat)
    requires Distinct(Keys(result)) && k < l < |result|
    ensures !SameFix(result[k], result[l])
  {
    SameFixSameGroup(result[k], result[l]);
    assert Keys(result)[k] != Keys(result)[l];
  }

  lemma EntryWithFix(result: seq<SimilarIncident>, incidents: seq<SimilarIncident>, s: SimilarIncident)
    returns (k: nat)
    requires ListsFixes(Keys(result), incidents) && s in incidents
    ensures k < |result| && SameFix(s, result[k])
  {
    GroupMembers(incidents, FixKey(s));
    assert s in Group(incidents, FixKey(s));
    k :| 0 <= k < |result| && Keys(result)[k] == FixKey(s);
    SameFixSameGroup(s, result[k]);
  }

  lemma GroupingMeans(result: seq<SimilarIncident>, incidents: seq<SimilarIncident>)
    requires Regroups(result, incidents)
    ensures IsGrouping(result, incidents)
  {
    forall k, l | 0 <= k < l < |result|
      ensures !SameFix(result[k], result[l])
    {
      EntriesDiffer(result, k, l);
    }
    forall s | s in incidents
      ensures IsStoodFor(s, result)
    {
      var k := EntryWithFix(result, incidents, s);
    }
    forall e | e in result
      ensures Stands(e, incidents)
    {
      var k :| 0 <= k < |result| && result[k] == e;
      assert Keys(result)[k] in Keys(result);
      var i := EntryStandsFor(incidents, Keys(result)[k]);
    }
  }

  lemma FixesDiffer(incidents: seq<SimilarIncident>)
    ensures Distinct(Keys(incidents))
       <==> forall i, j | 0 <= i < j < |incidents| :: !SameFix(incidents[i], incidents[j])
  {
    forall i, j | 0 <= i < j < |incidents|
      ensures SameFix(incidents[i], incidents[j]) <==> Keys(incidents)[i] == Keys(incidents)[j]
    {
      SameFixSameGroup(incidents[i], incidents[j]);
    }
  }

  /** groupByFix: the list comes back as it was, in its order, exactly when no two of its
      incidents share a fix; otherwise the entries come in any order. */
  method GroupByFix(incidents: seq<SimilarIncident>) returns (result: seq<SimilarIncident>)
    ensures Regroups(result, incidents) && IsGrouping(result, incidents)
    ensures result == incidents <==> Distinct(Keys(incidents))
    ensures result == incidents <==> forall i, j | 0 <= i < j < |incidents| :: !SameFix(incidents[i], incidents[j])
  {
    FixesDiffer(incidents);
    if |incidents| <= 1 {
      NothingToGroup(incidents);
      result := incidents;
    } else {
      var groups := BuildGroups(incidents);
      AsManyGroups(incidents, groups.Keys);
      assert |groups| == |groups.Keys|;
      if |groups| == |incidents| {
        NothingToGroup(incidents);
        result := incidents;
      } else {
        result := Represent(incidents, groups);
      }
    }
    GroupingMeans(result, incidents);
  }

  lemma GroupNext(incidents: seq<SimilarIncident>, n: nat, key: string)
    requires n < |incidents|
    ensures Group(incidents[..n + 1], key)
         == if FixKey(incidents[n]) == key then Group(incidents[..n], key) + [incidents[n]]
             else Group(incidents[..n], key)
  {
    assert incidents[..n + 1][..n] == incidents[..n];
  }

  /** The groups of the incidents, under their fixes. */
  ghost predicate Collects(groups: map<string, seq<SimilarIncident>>, incidents: seq<SimilarIncident>) {
    && (forall key :: key in groups <==> Group(incidents, key) != [])
    && (forall key | key in groups :: groups[key] == Group(incidents, key))
  }

  lemma CollectsNext(groups: map<string, seq<SimilarIncident>>, incidents: seq<SimilarIncident>, n: nat, fix: string)
    requires n < |incidents| && Collects(groups, incidents[..n]) && fix == FixKey(incidents[n])
    ensures Collects(groups[fix := (if fix in groups then groups[fix] else []) + [incidents[n]]], incidents[..n + 1])
  {
    var after := groups[fix := (if fix in groups then groups[fix] else []) + [incidents[n]]];
    forall key
      ensures key in after <==> Group(incidents[..n + 1], key) != []
      ensures key in after ==> after[key] == Group(incidents[..n + 1], key)
    {
      GroupNext(incidents, n, key);
    }
  }

  method BuildGroups(incidents: seq<SimilarIncident>) returns (groups: map<string, seq<SimilarIncident>>)
    ensures Collects(groups, incidents)
  {
    groups := map[];
    for n := 0 to |incidents|
      invariant Collects(groups, incidents[..n])
    {
      var inc := incidents[n];
      var fix := "";
      if inc.incident.analysis.Some? {
        fix := Fold(inc.incident.analysis.value.fixSummary);
      }
      if fix == "" {
        fix := "_no_fix_";
      }
      CollectsNext(groups, incidents, n, fix);
      groups := groups[fix := (if fix in groups then groups[fix] else []) + [inc]];
    }
    assert incidents[..|incidents|] == incidents;
  }

  /** The rebuilding loop: map iteration visits the groups in any order. */
  method Represent(ghost incidents: seq<SimilarIncident>, groups: map<string, seq<SimilarIncident>>)
    returns (result: seq<SimilarIncident>)
    requires Collects(groups, incidents)
    ensures Regroups(result, incidents)
  {
    result := [];
    ghost var keys: seq<string> := [];
    var todo := groups.Keys;
    while todo != {}
      invariant todo <= groups.Keys
      invariant Distinct(keys) && |result| == |keys|
      invariant forall key :: key in keys <==> key in groups && key !in todo
      invariant forall k | 0 <= k < |keys| :: keys[k] in groups && result[k] == Entry(incidents, keys[k])
    {
      var key :| key in todo;
      todo := todo - {key};
      var group := groups[key];
      keys := keys + [key];
      if |group| == 1 {
        assert group[0].matchedOn + [] == group[0].matchedOn;
        result := result + [group[0]];
      } else {
        var mostRecent := Latest(group);
        mostRecent := mostRecent.(matchedOn := mostRecent.matchedOn + ["(+" + Decimal(|group| - 1) + " similar)"]);
        result := result + [mostRecent];
      }
    }
    EntriesRegroup(result, keys, incidents);
  }

  method Latest(group: seq<SimilarIncident>) returns (mostRecent: SimilarIncident)
    requires group != []
    ensures mostRecent == MostRecent(group)
  {
    mostRecent := group[0];
    for n := 1 to |group|
      invariant mostRecent == MostRecent(group[..n])
    {
      if group[n].incident.createdAt > mostRecent.incident.createdAt {
        mostRecent := group[n];
      }
      assert group[..n + 1][..n] == group[..n];
    }
    assert group[..|group|] == group;
  }

  // ----- the list that is shown -----

  predicate MoreConfident(a: SimilarIncident, b: SimilarIncident) {
    a.confidence >= b.confidence
  }

  /** What groupByFix can return, by the order in which it meets the groups. */
  ghost predicate CanReturn(result: seq<SimilarIncident>, incidents: seq<SimilarIncident>) {
    if Distinct(Keys(incidents)) then result == incidents else Regroups(result, incidents)
  }

  /** No entry left out is more confident than one that is shown. */
  ghost predicate ShowsBest(result: seq<SimilarIncident>, max: nat) {
    forall i, j | 0 <= i < max <= j < |result| :: MoreConfident(result[i], result[j])
  }

  ghost function Fixes(incidents: seq<SimilarIncident>): set<string> {
    set fix | fix in Keys(incidents)
  }

  ghost predicate EntriesAlike(incidents: seq<SimilarIncident>) {
    forall x, y | Group(incidents, x) != [] && Group(incidents, y) != [] ::
      Entry(incidents, x).confidence >= Entry(incidents, y).confidence
  }

  /** No two incidents share a fix, nothing is cut off, nothing is left, or all entries are equally confident. */
  ghost predicate NothingMisplaced(incidents: seq<SimilarIncident>, max: nat) {
    Distinct(Keys(incidents)) || |Fixes(incidents)| <= max || max == 0 || EntriesAlike(incidents)
  }

  lemma AsManyAsFixes(result: seq<SimilarIncident>, incidents: seq<SimilarIncident>)
    requires Regroups(result, incidents)
    ensures |result| == |Fixes(incidents)|
  {
    forall key
      ensures key in Keys(result) <==> key in Fixes(incidents)
    {
      KeysHaveGroups(incidents, key);
    }
    assert Fixes(incidents) == set key | key in Keys(result);
    FewerWhenRepeated(Keys(result));
  }

  /** Some order of the groups begins with `x` and ends with `y`. */
  lemma OrderBetween(incidents: seq<SimilarIncident>, x: string, y: string) returns (keys: seq<string>)
    requires x != y && Group(incidents, x) != [] && Group(incidents, y) != []
    ensures ListsFixes(keys, incidents) && |keys| >= 2 && keys[0] == x && keys[|keys| - 1] == y
  {
    var others := SomeOrder(Fixes(incidents) - {x, y});
    OrderedOnce(others, Fixes(incidents) - {x, y});
    keys := [x] + others + [y];
    DistinctBetween(x, others, y);
    forall key
      ensures key in Fixes(incidents) <==> Group(incidents, key) != []
    {
      KeysHaveGroups(incidents, key);
    }
  }

  /** A more confident entry is left out, a less confident one shown. */
  lemma BestLeftOut(incidents: seq<SimilarIncident>, max: nat, x: string, y: string)
    returns (result: seq<SimilarIncident>)
    requires Group(incidents, x) != [] && Group(incidents, y) != [] && 0 < max < |Fixes(incidents)|
    requires Entry(incidents, x).confidence < Entry(incidents, y).confidence
    ensures Regroups(result, incidents) && !ShowsBest(result, max)
  {
    var keys := OrderBetween(incidents, x, y);
    result := seq(|keys|, k requires 0 <= k < |keys| => Entry(incidents, keys[k]));
    EntriesRegroup(result, keys, incidents);
    AsManyAsFixes(result, incidents);
    assert !MoreConfident(result[0], result[|result| - 1]);
  }

  /** Exactly then the list cut off at `max` holds the most confident entries in whatever
      order the groups were met. */
  lemma ShowsBestExactly(incidents: seq<SimilarIncident>, max: nat)
    requires Sorted(incidents, MoreConfident)
    ensures (forall result | CanReturn(result, incidents) :: ShowsBest(result, max))
       <==> NothingMisplaced(incidents, max)
  {
    forall result | Regroups(result, incidents)
      ensures |result| == |Fixes(incidents)| && (EntriesAlike(incidents) ==> ShowsBest(result, max))
    {
      AsManyAsFixes(result, incidents);
      assert forall k | 0 <= k < |result| :: Keys(result)[k] in Keys(result);
    }
    if !Distinct(Keys(incidents)) && 0 < max < |Fixes(incidents)| && !EntriesAlike(incidents) {
      var x, y :| && Group(incidents, x) != [] && Group(incidents, y) != []
                  && Entry(incidents, x).confidence < Entry(incidents, y).confidence;
      var result := BestLeftOut(incidents, max, x, y);
      assert CanReturn(result, incidents);
    }
  }

  lemma ConfidenceIsPreorder()
    ensures Preorder(MoreConfident)
  {
  }

  function FirstOf(result: seq<SimilarIncident>, max: nat): seq<SimilarIncident> {
    if |result| > max then result[..max] else result
  }

  /** The end of FindSimilarIncidents: the scored incidents are sorted, grouped, and cut off.
      A negative limit panics. */
  method TopSimilar(scored: seq<SimilarIncident>, max: int) returns (shown: Option<seq<SimilarIncident>>)
    ensures shown.None? <==> max < 0
    ensures shown.Some? ==>
              var sorted := SortBy(scored, MoreConfident);
              exists result | CanReturn(result, sorted) ::
                shown.value == FirstOf(result, max) && (NothingMisplaced(sorted, max) ==> ShowsBest(result, max))
  {
    var results := SortBy(scored, MoreConfident);
    ghost var sorted := results;
    results := GroupByFix(results);
    assert CanReturn(results, sorted);
    if max < 0 {
      return None;
    }
    ConfidenceIsPreorder();
    ShowsBestExactly(sorted, max);
    shown := Some(if |results| > max then results[..max] else results);
    assert shown.value == FirstOf(results, max);
  }
}
