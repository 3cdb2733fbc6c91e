/** When two alerts share the key they are deduplicated by. */
module KeyCollisions {
  import opened Collections
  import opened Text
  import opened Sorting
  import opened FingerprintKeys

  /** The text behind the key of an alert without a fingerprint. */
  ghost function TextOf(labels: Labels): string {
    Canonical(Label(labels, "alertname"), Label(labels, "service"), labels)
  }

  /** The labels are hashed: fingerprintKey asks for a name and a service. */
  ghost predicate Hashed(labels: Labels) {
    Label(labels, "alertname") != "" && Label(labels, "service") != ""
  }

  /** The text reads as the text of labels: cut at its bars, its fields are in form, and
      among them are the name and the service it begins with. */
  ghost predicate Reads(text: string) {
    var (alertName, service, labels) := Parse(text);
    && '|' in text && InForm(Cut(Parts(text).2))
    && Label(labels, "alertname") == alertName && Label(labels, "service") == service
  }

  lemma OnceEach(keys: seq<string>, labels: Labels)
    requires Distinct(keys) && forall key :: key in keys <==> key in labels
    ensures multiset(keys) == multiset(labels.Keys)
  {
    DistinctByCount(keys);
    forall key
      ensures multiset(keys)[key] == multiset(labels.Keys)[key]
    {
      assert key in multiset(keys) <==> key in keys;
    }
  }

  /** A text that reads as labels is the text of those labels, and they can be read back from it. */
  lemma ReadableText(text: string)
    requires Reads(text)
    ensures Readable(Parse(text).2) && TextOf(Parse(text).2) == text
  {
    var (alertName, service, labels) := Parse(text);
    PartsGlued(text);
    var fields := Parts(text).2;
    GlueCut(fields);
    FormIsPairs(Cut(fields));
    OnceEach(KeysIn(Cut(fields)), labels);
    CanonicalOf(alertName, service, KeysIn(Cut(fields)), labels);
  }

  lemma TextReads(labels: Labels)
    requires Readable(labels)
    ensures Reads(TextOf(labels)) && Parse(TextOf(labels)).2 == labels
  {
    var alertName, service := Label(labels, "alertname"), Label(labels, "service");
    ParseCanonical(alertName, service, labels);
    SortedKeysAreKeys(labels.Keys);
    CutAt(alertName, '|', service + FieldText(SortedKeys(labels.Keys), labels));
  }

  /** The text between the bars of a text. */
  function Bars(text: string): seq<string> {
    Cut("|" + text)
  }

  function AllBars(texts: seq<string>): seq<string> {
    if texts == [] then [] else Bars(texts[0]) + AllBars(texts[1..])
  }

  /** The name, the service and the fields in the order of their keys, all cut at their bars. */
  ghost function PiecesOf(labels: Labels): seq<string> {
    SortedKeysAreKeys(labels.Keys);
    Bars(Label(labels, "alertname")) + Bars(Label(labels, "service"))
    + AllBars(Pairs(SortedKeys(labels.Keys), labels))
  }

  lemma Push(piece: string, text: string, more: string)
    ensures "|" + (piece + (text + more)) == ("|" + (piece + text)) + more
  {
    Regroup(piece, text, more);
    Regroup("|", piece + text, more);
  }

  lemma {:induction false} GlueConcat(pieces: seq<string>, more: seq<string>)
    ensures Glue(pieces + more) == Glue(pieces) + Glue(more)
  {
    if pieces == [] {
      assert pieces + more == more;
    } else {
      GlueConcat(pieces[1..], more);
      assert (pieces + more)[0] == pieces[0] && (pieces + more)[1..] == pieces[1..] + more;
      Push(pieces[0], Glue(pieces[1..]), Glue(more));
    }
  }

  lemma CutConcat(text: string, more: string)
    requires (text == "" || text[0] == '|') && (more == "" || more[0] == '|')
    ensures Cut(text + more) == Cut(text) + Cut(more)
  {
    GlueCut(text);
    GlueCut(more);
    GlueConcat(Cut(text), Cut(more));
    CutGlued(Cut(text) + Cut(more));
  }

  lemma {:induction false} CutOfGlued(texts: seq<string>)
    ensures Cut(Glue(texts)) == AllBars(texts)
  {
    if texts != [] {
      CutOfGlued(texts[1..]);
      CutConcat("|" + texts[0], Glue(texts[1..]));
      assert "|" + (texts[0] + Glue(texts[1..])) == ("|" + texts[0]) + Glue(texts[1..]);
    }
  }

  lemma BarsOfParts(alertName: string, service: string, fields: string)
    requires fields == "" || fields[0] == '|'
    ensures Bars(alertName + ("|" + (service + fields))) == Bars(alertName) + Bars(service) + Cut(fields)
  {
    var tail := "|" + (service + fields);
    BarsThen(alertName, tail);
    Regroup("|", service, fields);
    CutConcat("|" + service, fields);
  }

  lemma BarsThen(head: string, tail: string)
    requires tail == "" || tail[0] == '|'
    ensures Bars(head + tail) == Bars(head) + Cut(tail)
  {
    Regroup("|", head, tail);
    CutConcat("|" + head, tail);
  }

  lemma PiecesOfText(labels: Labels)
    ensures Bars(TextOf(labels)) == PiecesOf(labels)
  {
    SortedKeysAreKeys(labels.Keys);
    var pairs := Pairs(SortedKeys(labels.Keys), labels);
    BarsOfParts(Label(labels, "alertname"), Label(labels, "service"), Glue(pairs));
    CutOfGlued(pairs);
  }

  /** Any two alerts without a fingerprint share their key exactly when their names, services
      and fields, cut at their bars, are the same pieces in the same order. */
  lemma SameKeyExactly(labels1: Labels, labels2: Labels, digest: string -> string)
    requires forall a, b | digest(a) == digest(b) :: a == b
    requires Hashed(labels1) && Hashed(labels2)
    ensures KeyOf("", labels1, digest) == KeyOf("", labels2, digest) <==> PiecesOf(labels1) == PiecesOf(labels2)
  {
    PiecesOfText(labels1);
    PiecesOfText(labels2);
    GlueCut("|" + TextOf(labels1));
    GlueCut("|" + TextOf(labels2));
    if PiecesOf(labels1) == PiecesOf(labels2) {
      assert ("|" + TextOf(labels1))[1..] == ("|" + TextOf(labels2))[1..];
      assert ("|" + TextOf(labels1))[1..] == TextOf(labels1) && ("|" + TextOf(labels2))[1..] == TextOf(labels2);
    }
  }

  /** The pieces of labels that can be read back are the name, the service and the fields in form. */
  lemma ReadablePieces(labels: Labels)
    requires Readable(labels)
    ensures forall key | key in SortedKeys(labels.Keys) :: key in labels
    ensures InForm(Pairs(SortedKeys(labels.Keys), labels))
    ensures PiecesOf(labels)
         == [Label(labels, "alertname"), Label(labels, "service")] + Pairs(SortedKeys(labels.Keys), labels)
  {
    var keys := SortedKeys(labels.Keys);
    KeysOnce(keys, labels);
    PairsInForm(keys, labels);
    CutOfGlued(Pairs(keys, labels));
    OnePiece(Label(labels, "alertname"));
    OnePiece(Label(labels, "service"));
    TwoFirst(Label(labels, "alertname"), Label(labels, "service"), Pairs(keys, labels));
  }

  lemma TwoFirst(first: string, second: string, rest: seq<string>)
    ensures [first] + [second] + rest == [first, second] + rest
  {
  }

  lemma OnePiece(text: string)
    requires Free(text, {'|'})
    ensures Bars(text) == [text]
  {
    assert [text][1..] == [] && text + "" == text;
    CutGlued([text]);
  }

  /** An alert shares its key with one whose labels can be read back exactly when its own
      text reads as those labels. */
  lemma SharedKeyExactly(plain: Labels, labels: Labels, digest: string -> string)
    requires forall a, b | digest(a) == digest(b) :: a == b
    requires Readable(plain) && Hashed(plain) && Hashed(labels)
    ensures KeyOf("", plain, digest) == KeyOf("", labels, digest)
       <==> Reads(TextOf(labels)) && Parse(TextOf(labels)).2 == plain
  {
    TextReads(plain);
    if Reads(TextOf(labels)) {
      ReadableText(TextOf(labels));
    }
  }

  /** So there are different labels, which can be read back, with the same key exactly when
      the text reads although the labels cannot be read back: some value holds a bar, or
      some key a bar or an equals sign. */
  lemma CollidesExactly(labels: Labels, digest: string -> string)
    requires forall a, b | digest(a) == digest(b) :: a == b
    requires Hashed(labels)
    ensures (exists plain ::
        Readable(plain) && Hashed(plain) && plain != labels && KeyOf("", plain, digest) == KeyOf("", labels, digest))
       <==> Reads(TextOf(labels)) && Hashed(Parse(TextOf(labels)).2) && !Readable(labels)
  {
    forall plain | Readable(plain) && Hashed(plain)
      ensures KeyOf("", plain, digest) == KeyOf("", labels, digest)
         <==> Reads(TextOf(labels)) && Parse(TextOf(labels)).2 == plain
    {
      SharedKeyExactly(plain, labels, digest);
    }
    if Readable(labels) {
      TextReads(labels);
    } else if Reads(TextOf(labels)) {
      ReadableText(TextOf(labels));
    }
  }

  /** Without explicit fingerprints, and if the digest does not collide, two alerts whose
      labels can be read back share a key exactly when their labels are the same. */
  lemma SameKeySameLabels(labels1: Labels, labels2: Labels, digest: string -> string)
    requires forall a, b | digest(a) == digest(b) :: a == b
    requires Readable(labels1) && Readable(labels2) && Hashed(labels1) && Hashed(labels2)
    ensures KeyOf("", labels1, digest) == KeyOf("", labels2, digest) <==> labels1 == labels2
  {
    SharedKeyExactly(labels1, labels2, digest);
    TextReads(labels2);
  }

  /** No other key lies between the two. */
  ghost predicate Adjacent(labels: Labels, x: string, y: string) {
    && x in labels && y in labels && x != y && AtMost(x, y)
    && forall key | key in labels && AtMost(x, key) && AtMost(key, y) :: key == x || key == y
  }

  /** The labels with `y` written into the value of `x`. */
  ghost function Merged(labels: Labels, x: string, y: string): Labels
    requires x in labels && y in labels
  {
    (labels - {y})[x := labels[x] + ("|" + Pair(y, labels[y]))]
  }

  /** Any labels with two adjacent keys besides the name and the service: writing the second
      into the value of the first, behind a bar, gives another alert with the same key. */
  lemma BarCollides(labels: Labels, x: string, y: string, digest: string -> string)
    requires Hashed(labels) && Adjacent(labels, x, y)
    requires x != "alertname" && x != "service" && y != "alertname" && y != "service"
    ensures Merged(labels, x, y) != labels && Hashed(Merged(labels, x, y))
    ensures KeyOf("", Merged(labels, x, y), digest) == KeyOf("", labels, digest) == digest(TextOf(labels))
  {
    MergedIsHashed(labels, x, y);
    var keys := SortedKeys(labels.Keys);
    KeysOnce(keys, labels);
    var i := NextTo(labels, keys, x, y);
    MergedFields(keys, i, labels);
  }

  lemma MergedIsHashed(labels: Labels, x: string, y: string)
    requires x in labels && y in labels && x != y
    requires x != "alertname" && x != "service" && y != "alertname" && y != "service"
    ensures y !in Merged(labels, x, y) && (Hashed(Merged(labels, x, y)) <==> Hashed(labels))
    ensures Label(Merged(labels, x, y), "alertname") == Label(labels, "alertname")
    ensures Label(Merged(labels, x, y), "service") == Label(labels, "service")
  {
  }

  /** The merged labels are written out as the same fields. */
  lemma MergedFields(keys: seq<string>, i: nat, labels: Labels)
    requires SortedStrings(keys) && Distinct(keys) && i + 1 < |keys| && forall key :: key in keys <==> key in labels
    ensures var merged := Merged(labels, keys[i], keys[i + 1]);
            forall name, service :: Canonical(name, service, merged) == Canonical(name, service, labels)
  {
    var merged := Merged(labels, keys[i], keys[i + 1]);
    var fewer := keys[..i + 1] + keys[i + 2..];
    FewerSorted(keys, i);
    FewerKeys(keys, i, labels, merged);
    OnceEach(fewer, merged);
    OnceEach(keys, labels);
    FieldsMerge(keys, i, labels, merged);
    forall name, service
      ensures Canonical(name, service, merged) == Canonical(name, service, labels)
    {
      CanonicalOf(name, service, keys, labels);
      CanonicalOf(name, service, fewer, merged);
    }
  }

  lemma NextTo(labels: Labels, keys: seq<string>, x: string, y: string) returns (i: nat)
    requires Adjacent(labels, x, y) && SortedStrings(keys) && multiset(keys) == multiset(labels.Keys)
    requires forall key :: key in keys <==> key in labels
    ensures i + 1 < |keys| && keys[i] == x && keys[i + 1] == y && Distinct(keys)
  {
    DistinctByCount(keys);
    i :| 0 <= i < |keys| && keys[i] == x;
    var j :| 0 <= j < |keys| && keys[j] == y;
    if j < i {
      AtMostAntisymmetric(x, y);
    }
    assert keys[i + 1] in labels;
    if i + 1 < j {
      assert keys[i + 1] == x || keys[i + 1] == y;
    }
  }

  lemma FewerSorted(keys: seq<string>, i: nat)
    requires SortedStrings(keys) && Distinct(keys) && i + 1 < |keys|
    ensures var fewer := keys[..i + 1] + keys[i + 2..];
            SortedStrings(fewer) && Distinct(fewer) && keys[i + 1] !in fewer
  {
    var fewer := keys[..i + 1] + keys[i + 2..];
    assert forall k | 0 <= k < |fewer| :: fewer[k] == keys[if k <= i then k else k + 1];
  }

  lemma FewerKeys(keys: seq<string>, i: nat, labels: Labels, merged: Labels)
    requires i + 1 < |keys| && keys[i + 1] !in keys[..i + 1] + keys[i + 2..]
    requires forall key :: key in keys <==> key in labels
    requires forall key :: key in merged <==> key in labels && key != keys[i + 1]
    ensures forall key :: key in keys[..i + 1] + keys[i + 2..] <==> key in merged
  {
    assert keys == keys[..i + 1] + [keys[i + 1]] + keys[i + 2..];
  }

  lemma {:induction false} GlueMerge(pieces: seq<string>, i: nat)
    requires i + 1 < |pieces|
    ensures Glue(pieces[..i] + [pieces[i] + ("|" + pieces[i + 1])] + pieces[i + 2..]) == Glue(pieces)
  {
    var merged := pieces[..i] + [pieces[i] + ("|" + pieces[i + 1])] + pieces[i + 2..];
    if i == 0 {
      var rest := Glue(pieces[2..]);
      assert pieces[1..][1..] == pieces[2..] && merged[1..] == pieces[2..];
      assert (pieces[0] + ("|" + pieces[1])) + rest == pieces[0] + ("|" + (pieces[1] + rest));
    } else {
      GlueMerge(pieces[1..], i - 1);
      assert merged[1..] == pieces[1..][..i - 1] + [pieces[1..][i - 1] + ("|" + pieces[1..][i])] + pieces[1..][i + 1..];
    }
  }

  lemma FieldsMerge(keys: seq<string>, i: nat, labels: Labels, merged: Labels)
    requires i + 1 < |keys| && Distinct(keys) && (forall key | key in keys :: key in labels)
    requires merged == Merged(labels, keys[i], keys[i + 1])
    requires forall key | key in keys[..i + 1] + keys[i + 2..] :: key in merged
    ensures FieldText(keys[..i + 1] + keys[i + 2..], merged) == FieldText(keys, labels)
  {
    var pieces := Pairs(keys, labels);
    var x, y := keys[i], keys[i + 1];
    assert Pair(x, merged[x]) == pieces[i] + ("|" + pieces[i + 1]);
    assert Pairs(keys[..i + 1] + keys[i + 2..], merged)
        == pieces[..i] + [pieces[i] + ("|" + pieces[i + 1])] + pieces[i + 2..];
    GlueMerge(pieces, i);
  }

  function Example(team: string, tier: string): Labels {
    map["alertname" := "a", "service" := "s", "team" := team, "tier" := tier]
  }

  function Shorter(team: string): Labels {
    map["alertname" := "a", "service" := "s", "team" := team]
  }

  lemma ExampleMerged(team: string, tier: string)
    ensures Merged(Example(team, tier), "team", "tier") == Shorter(team + ("|" + Pair("tier", tier)))
  {
  }

  lemma ExampleKeys(team: string, tier: string)
    ensures Hashed(Example(team, tier)) && Adjacent(Example(team, tier), "team", "tier")
  {
    assert AtMost("team", "tier") && !AtMost("team", "alertname") && !AtMost("team", "service");
  }

  /** Two different alerts of one key: the second has one label less, whose text stands in another's value. */
  lemma OneKeyTwoAlerts(team: string, tier: string, merged: string, digest: string -> string)
    requires merged == team + ("|" + Pair("tier", tier))
    ensures Hashed(Example(team, tier)) && Hashed(Shorter(merged)) && Example(team, tier) != Shorter(merged)
    ensures KeyOf("", Example(team, tier), digest) == KeyOf("", Shorter(merged), digest)
  {
    assert "tier" in Example(team, tier) && "tier" !in Shorter(merged);
    ExampleMerged(team, tier);
    ExampleKeys(team, tier);
    BarCollides(Example(team, tier), "team", "tier", digest);
  }

  lemma BarredNotReadable(team: string, tier: string)
    requires '|' in team
    ensures !Readable(Example(team, tier)) && !Readable(Shorter(team))
  {
    assert "team" in Example(team, tier) && Example(team, tier)["team"] == team;
    assert "team" in Shorter(team) && Shorter(team)["team"] == team;
  }

  /** If the team holds a bar already, neither alert's labels can be read back. */
  lemma OneKeyNeitherReadable(team: string, tier: string, merged: string, digest: string -> string)
    requires merged == team + ("|" + Pair("tier", tier)) && '|' in team
    ensures Hashed(Example(team, tier)) && Hashed(Shorter(merged)) && Example(team, tier) != Shorter(merged)
    ensures KeyOf("", Example(team, tier), digest) == KeyOf("", Shorter(merged), digest)
    ensures !Readable(Example(team, tier)) && !Readable(Shorter(merged))
  {
    OneKeyTwoAlerts(team, tier, merged, digest);
    BarredNotReadable(team, tier);
    BarredNotReadable(merged, tier);
  }

  /** For instance: the merged text of team `x|foo` and tier `z`. */
  lemma FooPair(team: string, tier: string, merged: string)
    requires team == "x|foo" && tier == "z" && merged == "x|foo|tier=z"
    ensures merged == team + ("|" + Pair("tier", tier)) && '|' in team
  {
    assert team[1] == '|';
  }
}
