/** The canonical text whose hash identifies an alert by its labels. */
module FingerprintKeys {
  import opened Collections
  import opened Text
  import opened Sorting

  type Labels = map<string, string>

  // ----- the text -----

  ghost function SortedKeys(keys: set<string>): (sorted: seq<string>)
    ensures SortedStrings(sorted) && multiset(sorted) == multiset(keys)
  {
    SortStrings(SomeOrder(keys))
  }

  function Pair(key: string, value: string): string {
    key + ("=" + value)
  }

  function Pairs(keys: seq<string>, labels: Labels): seq<string>
    requires forall key | key in keys :: key in labels
  {
    seq(|keys|, i requires 0 <= i < |keys| => Pair(keys[i], labels[keys[i]]))
  }

  /** The pieces, each behind a bar. */
  function Glue(pieces: seq<string>): (text: string)
    ensures text == "" || text[0] == '|'
  {
    if pieces == [] then "" else "|" + (pieces[0] + Glue(pieces[1..]))
  }

  /** `|key=value` for each of the keys in turn. */
  ghost function FieldText(keys: seq<string>, labels: Labels): string
    requires forall key | key in keys :: key in labels
  {
    Glue(Pairs(keys, labels))
  }

  lemma SortedKeysAreKeys(keys: set<string>)
    ensures forall key :: key in SortedKeys(keys) <==> key in keys
  {
    OrderedOnce(SortedKeys(keys), keys);
  }

  /** What is hashed: it depends on the label map alone. */
  ghost function Canonical(alertName: string, service: string, labels: Labels): string {
    SortedKeysAreKeys(labels.Keys);
    alertName + ("|" + (service + FieldText(SortedKeys(labels.Keys), labels)))
  }

  // ----- cutting text -----

  /** The text up to the first `c`. */
  function UpTo(text: string, c: char): (head: string)
    ensures |head| <= |text|
  {
    if text == "" || text[0] == c then "" else [text[0]] + UpTo(text[1..], c)
  }

  /** The part of the text after its first `n` characters, and after the character that follows them. */
  function Drop(text: string, n: nat): string {
    if n < |text| then text[n + 1..] else ""
  }

  lemma {:induction false} UpToStops(head: string, c: char, tail: string)
    requires Free(head, {c}) && (tail == "" || tail[0] == c)
    ensures UpTo(head + tail, c) == head
  {
    if head == "" {
      assert head + tail == tail;
    } else {
      assert (head + tail)[1..] == head[1..] + tail;
      assert Free(head[1..], {c});
      UpToStops(head[1..], c, tail);
    }
  }

  lemma {:induction false} UpToIsPrefix(text: string, c: char)
    ensures UpTo(text, c) == text[..|UpTo(text, c)|] && Free(UpTo(text, c), {c})
    ensures |UpTo(text, c)| < |text| ==> text[|UpTo(text, c)|] == c
  {
    if text != "" && text[0] != c {
      UpToIsPrefix(text[1..], c);
    }
  }

  lemma CutAt(head: string, c: char, tail: string)
    requires Free(head, {c})
    ensures UpTo(head + ([c] + tail), c) == head && Drop(head + ([c] + tail), |head|) == tail
    ensures c in head + ([c] + tail)
  {
    UpToStops(head, c, [c] + tail);
    assert (head + ([c] + tail))[|head|] == c;
  }

  lemma {:induction false} UpToIsShort(text: string, c: char)
    requires c in text
    ensures |UpTo(text, c)| < |text|
  {
    if text[0] != c {
      assert text == [text[0]] + text[1..];
      UpToIsShort(text[1..], c);
    }
  }

  lemma CutThere(text: string, n: nat)
    requires n < |text|
    ensures text == text[..n] + ([text[n]] + text[n + 1..])
  {
  }

  lemma GlueAt(text: string, c: char)
    requires c in text
    ensures text == UpTo(text, c) + ([c] + Drop(text, |UpTo(text, c)|)) && Free(UpTo(text, c), {c})
  {
    UpToIsShort(text, c);
    UpToIsPrefix(text, c);
    CutThere(text, |UpTo(text, c)|);
  }

  /** What stands between the bars of a text that begins with one. */
  function Cut(text: string): seq<string>
    decreases |text|
  {
    if text == "" then []
    else [UpTo(text[1..], '|')] + Cut(text[1 + |UpTo(text[1..], '|')|..])
  }

  lemma {:induction false} CutGlued(pieces: seq<string>)
    requires forall i | 0 <= i < |pieces| :: Free(pieces[i], {'|'})
    ensures Cut(Glue(pieces)) == pieces
  {
    if pieces != [] {
      var rest := Glue(pieces[1..]);
      var text := "|" + (pieces[0] + rest);
      UpToStops(pieces[0], '|', rest);
      assert text[1..] == pieces[0] + rest;
      assert text[1 + |pieces[0]|..] == rest;
      CutGlued(pieces[1..]);
    }
  }

  lemma FirstPiece(text: string) returns (piece: string, rest: string)
    requires text != "" && text[0] == '|'
    ensures piece == UpTo(text[1..], '|') && Free(piece, {'|'})
    ensures rest == text[1 + |piece|..] && (rest == "" || rest[0] == '|') && text == "|" + (piece + rest)
  {
    piece := UpTo(text[1..], '|');
    UpToIsPrefix(text[1..], '|');
    rest := text[1 + |piece|..];
    AfterFirst(text, |piece|);
  }

  lemma AfterFirst(text: string, n: nat)
    requires n < |text|
    ensures text == [text[0]] + (text[1..][..n] + text[1 + n..])
    ensures n + 1 < |text| ==> text[1 + n..] != "" && text[1 + n..][0] == text[1..][n]
  {
    assert text[1..] == text[1..][..n] + text[1 + n..];
  }

  lemma {:induction false} GlueCut(text: string)
    requires text == "" || text[0] == '|'
    ensures Glue(Cut(text)) == text && forall i | 0 <= i < |Cut(text)| :: Free(Cut(text)[i], {'|'})
    decreases |text|
  {
    if text != "" {
      var piece, rest := FirstPiece(text);
      GlueCut(rest);
      assert Cut(text)[0] == piece && Cut(text)[1..] == Cut(rest);
    }
  }

  function KeyIn(piece: string): string {
    UpTo(piece, '=')
  }

  function ValueIn(piece: string): string {
    Drop(piece, |KeyIn(piece)|)
  }

  function KeysIn(pieces: seq<string>): seq<string> {
    seq(|pieces|, i requires 0 <= i < |pieces| => KeyIn(pieces[i]))
  }

  function ValuesIn(pieces: seq<string>): seq<string> {
    seq(|pieces|, i requires 0 <= i < |pieces| => ValueIn(pieces[i]))
  }

  function MapOf(keys: seq<string>, values: seq<string>): Labels
    requires |keys| == |values|
  {
    if keys == [] then map[] else MapOf(keys[1..], values[1..])[keys[0] := values[0]]
  }

  /** Reads pieces of the form `key=value` into a map. */
  function Read(pieces: seq<string>): Labels {
    MapOf(KeysIn(pieces), ValuesIn(pieces))
  }

  lemma {:induction false} MapOfAt(keys: seq<string>, values: seq<string>)
    requires |keys| == |values| && Distinct(keys)
    ensures forall key :: key in MapOf(keys, values) <==> key in keys
    ensures forall i | 0 <= i < |keys| :: MapOf(keys, values)[keys[i]] == values[i]
  {
    if keys != [] {
      MapOfAt(keys[1..], values[1..]);
      assert keys == [keys[0]] + keys[1..];
      forall i | 0 <= i < |keys|
        ensures MapOf(keys, values)[keys[i]] == values[i]
      {
        if i > 0 {
          assert keys[1..][i - 1] == keys[i] && values[1..][i - 1] == values[i];
        }
      }
    }
  }

  lemma MapOfEach(keys: seq<string>, values: seq<string>, labels: Labels)
    requires |keys| == |values| && Distinct(keys) && forall key :: key in keys <==> key in labels
    requires forall i | 0 <= i < |keys| :: labels[keys[i]] == values[i]
    ensures MapOf(keys, values) == labels
  {
    MapOfAt(keys, values);
    forall key | key in labels
      ensures key in MapOf(keys, values) && MapOf(keys, values)[key] == labels[key]
    {
      var i :| 0 <= i < |keys| && keys[i] == key;
    }
  }

  // ----- reading the text back -----

  /** Labels that the text can be read back from. */
  ghost predicate Readable(labels: Labels) {
    forall key | key in labels :: Free(key, {'|', '='}) && Free(labels[key], {'|'})
  }

  lemma PairCut(key: string, value: string)
    requires Free(key, {'='})
    ensures KeyIn(Pair(key, value)) == key && ValueIn(Pair(key, value)) == value && '=' in Pair(key, value)
  {
    CutAt(key, '=', value);
  }

  /** Fields in form: every piece holds an equals sign, and the keys before it are strictly ascending. */
  ghost predicate InForm(pieces: seq<string>) {
    && (forall i | 0 <= i < |pieces| :: '=' in pieces[i])
    && SortedStrings(KeysIn(pieces)) && Distinct(KeysIn(pieces))
  }

  lemma PieceOfPair(key: string, value: string)
    requires Free(key, {'|', '='}) && Free(value, {'|'})
    ensures KeyIn(Pair(key, value)) == key && ValueIn(Pair(key, value)) == value
    ensures '=' in Pair(key, value) && Free(Pair(key, value), {'|'})
  {
    PairCut(key, value);
  }

  lemma PairOfPiece(piece: string)
    requires '=' in piece && Free(piece, {'|'})
    ensures Pair(KeyIn(piece), ValueIn(piece)) == piece
    ensures Free(KeyIn(piece), {'|', '='}) && Free(ValueIn(piece), {'|'})
  {
    GlueAt(piece, '=');
    UpToIsPrefix(piece, '=');
  }

  /** The fields of readable labels are in form and read as those labels. */
  lemma PairsInForm(keys: seq<string>, labels: Labels)
    requires Readable(labels) && SortedStrings(keys) && Distinct(keys) && forall key :: key in keys <==> key in labels
    ensures InForm(Pairs(keys, labels)) && Read(Pairs(keys, labels)) == labels
    ensures Cut(FieldText(keys, labels)) == Pairs(keys, labels)
  {
    var pieces := Pairs(keys, labels);
    forall i | 0 <= i < |keys|
      ensures KeyIn(pieces[i]) == keys[i] && ValueIn(pieces[i]) == labels[keys[i]]
      ensures '=' in pieces[i] && Free(pieces[i], {'|'})
    {
      assert keys[i] in labels;
      PieceOfPair(keys[i], labels[keys[i]]);
    }
    assert KeysIn(pieces) == keys;
    CutGlued(pieces);
    MapOfEach(keys, ValuesIn(pieces), labels);
  }

  /** Pieces in form are the fields of the labels they read as. */
  lemma FormIsPairs(pieces: seq<string>)
    requires InForm(pieces) && forall i | 0 <= i < |pieces| :: Free(pieces[i], {'|'})
    ensures Readable(Read(pieces)) && forall key :: key in KeysIn(pieces) <==> key in Read(pieces)
    ensures Pairs(KeysIn(pieces), Read(pieces)) == pieces
  {
    var keys, values := KeysIn(pieces), ValuesIn(pieces);
    MapOfAt(keys, values);
    forall i | 0 <= i < |pieces|
      ensures Pair(keys[i], values[i]) == pieces[i] && Free(keys[i], {'|', '='}) && Free(values[i], {'|'})
    {
      PairOfPiece(pieces[i]);
    }
    PlainMap(keys, values);
    assert Pairs(keys, Read(pieces)) == pieces;
  }

  lemma PlainMap(keys: seq<string>, values: seq<string>)
    requires |keys| == |values| && Distinct(keys)
    requires forall i | 0 <= i < |keys| :: Free(keys[i], {'|', '='}) && Free(values[i], {'|'})
    ensures Readable(MapOf(keys, values))
  {
    MapOfAt(keys, values);
    forall key | key in MapOf(keys, values)
      ensures Free(key, {'|', '='}) && Free(MapOf(keys, values)[key], {'|'})
    {
      var i :| 0 <= i < |keys| && keys[i] == key;
    }
  }

  /** The parts of the text: name, service, and the fields from their first bar on. */
  function Parts(text: string): (string, string, string) {
    var rest := Drop(text, |UpTo(text, '|')|);
    (UpTo(text, '|'), UpTo(rest, '|'), rest[|UpTo(rest, '|')|..])
  }

  lemma PartsOf(alertName: string, service: string, fields: string)
    requires Free(alertName, {'|'}) && Free(service, {'|'}) && (fields == "" || fields[0] == '|')
    ensures Parts(alertName + ("|" + (service + fields))) == (alertName, service, fields)
  {
    CutAt(alertName, '|', service + fields);
    UpToStops(service, '|', fields);
  }

  lemma PartsGlued(text: string)
    requires '|' in text
    ensures var (alertName, service, fields) := Parts(text);
            text == alertName + ("|" + (service + fields)) && (fields == "" || fields[0] == '|')
  {
    GlueAt(text, '|');
    var rest := Drop(text, |UpTo(text, '|')|);
    UpToIsPrefix(rest, '|');
    assert rest == UpTo(rest, '|') + rest[|UpTo(rest, '|')|..];
  }

  /** Reads the text back. */
  function Parse(text: string): (string, string, Labels) {
    (Parts(text).0, Parts(text).1, Read(Cut(Parts(text).2)))
  }

  lemma KeysOnce(keys: seq<string>, labels: Labels)
    requires multiset(keys) == multiset(labels.Keys)
    ensures Distinct(keys) && forall key :: key in keys <==> key in labels
  {
    OrderedOnce(keys, labels.Keys);
  }

  /** Without bars in names and values and equals signs in keys, the text tells what it was made from. */
  lemma ParseCanonical(alertName: string, service: string, labels: Labels)
    requires Free(alertName, {'|'}) && Free(service, {'|'}) && Readable(labels)
    ensures Parse(Canonical(alertName, service, labels)) == (alertName, service, labels)
    ensures InForm(Cut(Parts(Canonical(alertName, service, labels)).2))
  {
    var keys := SortedKeys(labels.Keys);
    KeysOnce(keys, labels);
    PairsInForm(keys, labels);
    PartsOf(alertName, service, FieldText(keys, labels));
  }

  /** The text is injective on such labels. */
  lemma CanonicalInjective(name1: string, service1: string, labels1: Labels, name2: string, service2: string,
      labels2: Labels)
    requires Free(name1, {'|'}) && Free(service1, {'|'}) && Readable(labels1)
    requires Free(name2, {'|'}) && Free(service2, {'|'}) && Readable(labels2)
    requires Canonical(name1, service1, labels1) == Canonical(name2, service2, labels2)
    ensures name1 == name2 && service1 == service2 && labels1 == labels2
  {
    ParseCanonical(name1, service1, labels1);
    ParseCanonical(name2, service2, labels2);
  }

  // ----- building it -----

  lemma {:induction false} GlueAppend(pieces: seq<string>, piece: string)
    ensures Glue(pieces + [piece]) == Glue(pieces) + ("|" + piece)
  {
    if pieces == [] {
      assert [piece][1..] == [] && pieces + [piece] == [piece];
      assert piece + "" == piece;
    } else {
      assert (pieces + [piece])[1..] == pieces[1..] + [piece];
      GlueAppend(pieces[1..], piece);
    }
  }

  lemma FieldsNext(keys: seq<string>, n: nat, labels: Labels)
    requires n < |keys| && forall key | key in keys :: key in labels
    ensures FieldText(keys[..n + 1], labels) == FieldText(keys[..n], labels) + ("|" + Pair(keys[n], labels[keys[n]]))
  {
    assert Pairs(keys[..n + 1], labels) == Pairs(keys[..n], labels) + [Pair(keys[n], labels[keys[n]])];
    GlueAppend(Pairs(keys[..n], labels), Pair(keys[n], labels[keys[n]]));
  }

  /** Any sorted arrangement of the keys gives the text. */
  lemma CanonicalOf(alertName: string, service: string, keys: seq<string>, labels: Labels)
    requires SortedStrings(keys) && multiset(keys) == multiset(labels.Keys)
    ensures forall key | key in keys :: key in labels
    ensures Canonical(alertName, service, labels) == alertName + ("|" + (service + FieldText(keys, labels)))
  {
    SortedStringsUnique(keys, SortedKeys(labels.Keys));
    SortedKeysAreKeys(labels.Keys);
  }

  /** hashLabels up to the hash: the keys are collected in any order, sorted, and written out. */
  method HashInput(alertName: string, service: string, labels: Labels) returns (text: string)
    ensures text == Canonical(alertName, service, labels)
  {
    var keys := CollectKeys(labels);
    keys := SortStrings(keys);
    CanonicalOf(alertName, service, keys, labels);
    text := WriteFields(alertName + "|" + service, keys, labels);
    HeadFirst(alertName, service, FieldText(keys, labels));
  }

  lemma HeadFirst(alertName: string, service: string, fields: string)
    ensures alertName + "|" + service + fields == alertName + ("|" + (service + fields))
  {
  }

  method WriteFields(head: string, keys: seq<string>, labels: Labels) returns (text: string)
    requires forall key | key in keys :: key in labels
    ensures text == head + FieldText(keys, labels)
  {
    text := head;
    for n := 0 to |keys|
      invariant text == head + FieldText(keys[..n], labels)
    {
      FieldsNext(keys, n, labels);
      text := text + ("|" + Pair(keys[n], labels[keys[n]]));
    }
    assert keys[..|keys|] == keys;
  }

  method CollectKeys(labels: Labels) returns (keys: seq<string>)
    ensures multiset(keys) == multiset(labels.Keys)
  {
    keys := [];
    var todo := labels.Keys;
    while todo != {}
      invariant todo <= labels.Keys
      invariant multiset(keys) == multiset(labels.Keys - todo)
    {
      var key :| key in todo;
      assert labels.Keys - (todo - {key}) == (labels.Keys - todo) + {key};
      todo := todo - {key};
      keys := keys + [key];
    }
    assert labels.Keys - todo == labels.Keys;
  }

  /** fingerprintKey: an explicit fingerprint wins; without one an alert needs a name and a service. */
  method FingerprintKey(fingerprint: string, labels: Labels, digest: string -> string) returns (key: string)
    ensures key == KeyOf(fingerprint, labels, digest)
    ensures TrimSpace(fingerprint) != "" ==> key == TrimSpace(fingerprint)
    ensures TrimSpace(fingerprint) == "" ==>
              if "alertname" in labels && labels["alertname"] != "" && "service" in labels && labels["service"] != ""
              then key == digest(Canonical(labels["alertname"], labels["service"], labels))
              else key == ""
  {
    if TrimSpace(fingerprint) != "" {
      return TrimSpace(fingerprint);
    }
    var alertName := if "alertname" in labels then labels["alertname"] else "";
    var service := if "service" in labels then labels["service"] else "";
    if alertName == "" || service == "" {
      return "";
    }
    var text := HashInput(alertName, service, labels);
    key := digest(text);
  }

  ghost function Label(labels: Labels, name: string): string {
    if name in labels then labels[name] else ""
  }

  ghost function KeyOf(fingerprint: string, labels: Labels, digest: string -> string): string {
    var alertName, service := Label(labels, "alertname"), Label(labels, "service");
    if TrimSpace(fingerprint) != "" then TrimSpace(fingerprint)
    else if alertName == "" || service == "" then ""
    else digest(Canonical(alertName, service, labels))
  }
}
