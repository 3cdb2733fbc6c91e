/** The queries discovery writes for a service, and the metric name it reads back from them. */
module MetricQueries {
  import opened Collections
  import opened Text

  // ----- writing a selector -----

  predicate IsIdentifier(s: string) {
    forall i | 0 <= i < |s| ::
      'a' <= s[i] <= 'z' || 'A' <= s[i] <= 'Z' || '0' <= s[i] <= '9' || s[i] == '_' || s[i] == ':'
  }

  function HexDigit(n: nat): char
    requires n < 16
  {
    if n < 10 then ('0' as int + n) as char else ('a' as int + n - 10) as char
  }

  /** How %q writes a byte; those above 127 are kept as they are. */
  function Escaped(c: char): string {
    var n := c as int;
    if c == '\"' || c == '\\' then ['\\', c]
    else if n == 7 then "\\a"
    else if n == 8 then "\\b"
    else if n == 9 then "\\t"
    else if n == 10 then "\\n"
    else if n == 11 then "\\v"
    else if n == 12 then "\\f"
    else if n == 13 then "\\r"
    else if n < 32 || n == 127 then ['\\', 'x', HexDigit(n / 16), HexDigit(n % 16)]
    else [c]
  }

  function EscapedAll(s: string): string {
    if s == "" then "" else EscapedAll(s[..|s| - 1]) + Escaped(s[|s| - 1])
  }

  function Quote(s: string): string {
    "\"" + EscapedAll(s) + "\""
  }

  function Selector(metric: string, tag: string, service: string): string {
    metric + ("{" + (tag + "=" + (Quote(service) + "}")))
  }

  // ----- the queries -----

  predicate IsGeneric(metric: string) {
    metric == "calls_total" || metric == "http_requests_total" || metric == "rpc_server_calls_total"
  }

  function FirstGeneric(metrics: seq<string>): Option<string> {
    if metrics == [] then None else if IsGeneric(metrics[0]) then Some(metrics[0]) else FirstGeneric(metrics[1..])
  }

  /** generateTotalQuery. `works` says whether Prometheus answers a query with data. */
  function TotalQuery(service: string, metrics: seq<string>, detectedTag: string, serviceTag: string,
                      works: string -> bool): string
  {
    var tag := if detectedTag == "" then serviceTag else detectedTag;
    if "spanmetrics_calls_total" in metrics then
      Selector("spanmetrics_calls_total", "service_name", service)
    else
      match FirstGeneric(metrics)
      case Some(m) => Selector(m, if tag == "" then "service" else tag, service)
      case None =>
        if metrics == [] then ""
        else if tag != "" && works("count(" + Selector(metrics[0], tag, service) + ")") then
          Selector(metrics[0], tag, service)
        else metrics[0]
  }

  predicate HasSuffix(s: string, suffix: string) {
    |suffix| <= |s| && s[|s| - |suffix|..] == suffix
  }

  function BucketForm(metric: string): string {
    if HasSuffix(metric, "_bucket") then metric else metric + "_bucket"
  }

  const PERCENTILE := "histogram_quantile(0.95, sum("

  function Percentile(selector: string): string {
    PERCENTILE + ("rate(" + (selector + "[15m])) by (le))"))
  }

  /** generateLatencyQuery. */
  function LatencyQuery(metric: string, service: string, detectedTag: string, serviceTag: string,
                        works: string -> bool): string
  {
    var tag := if detectedTag == "" then serviceTag else detectedTag;
    if metric == "spanmetrics_latency_bucket" then
      Percentile(Selector("spanmetrics_latency_bucket", "service_name", service))
    else
      var bucketMetric := BucketForm(metric);
      if tag != "" && works("count(" + Selector(bucketMetric, tag, service) + ")") then
        Percentile(Selector(bucketMetric, tag, service))
      else
        Percentile(bucketMetric)
  }

  // ----- reading the name back -----

  /** What stands between the first "rate(" and the next "[", if there are both and something between. */
  function RateArgument(query: string): Option<string> {
    match Index(query, "rate(")
    case None => None
    case Some(start) =>
      match Index(query[start + 5..], "[")
      case None => None
      case Some(end) => if end > 0 then Some(query[start + 5..start + 5 + end]) else None
  }

  function Stripped(selector: string): string {
    TrimSpace(Trim(if Contains(selector, "{") then Split(selector, "{")[0] else selector, {'(', ')'}))
  }

  function MetricName(query: string): string {
    match RateArgument(query)
    case Some(argument) => Stripped(argument)
    case None => Stripped(query)
  }

  /** extractMetricName, whose branch for quantiles outside a rate never finds one. */
  method ExtractMetricName(text: string) returns (query: string)
    ensures query == MetricName(text)
  {
    query := text;
    if Contains(query, "rate(") {
      var start := Index(query, "rate(").value + 5;
      var end := Index(query[start..], "[");
      if end.Some? && end.value > 0 {
        query := query[start..start + end.value];
      }
    } else if Contains(query, "histogram_quantile") {
      if Contains(query, "rate(") {
        assert false;
      }
    }
    if Contains(query, "{") {
      query := Split(query, "{")[0];
    }
    query := Trim(query, {'(', ')'});
    query := TrimSpace(query);
  }

  // ----- searching in a text made of parts -----

  /** A search passes over a beginning in which nothing found can start. */
  lemma IndexSkips(before: string, text: string, sub: string)
    requires sub != "" && forall i | 0 <= i < |before| :: !OccursAt(before + text, sub, i)
    ensures Index(before + text, sub)
         == match Index(text, sub) case Some(i) => Some(|before| + i) case None => None
  {
    IndexIsFirst(before + text, sub);
    IndexIsFirst(text, sub);
    forall i | |before| <= i
      ensures OccursAt(before + text, sub, i) <==> OccursAt(text, sub, i - |before|)
    {
      if i + |sub| <= |before + text| {
        assert (before + text)[i..i + |sub|] == text[i - |before|..i - |before| + |sub|];
      }
    }
    match Index(text, sub)
    case Some(i) => assert OccursAt(before + text, sub, |before| + i);
    case None =>
  }

  /** And it does not go on into an end that holds none of the characters looked for. */
  lemma IndexStops(text: string, after: string, sub: string)
    requires sub != "" && Free(after, {sub[|sub| - 1]})
    ensures Index(text + after, sub) == Index(text, sub)
  {
    IndexIsFirst(text + after, sub);
    IndexIsFirst(text, sub);
    forall i
      ensures OccursAt(text + after, sub, i) <==> OccursAt(text, sub, i)
    {
      if 0 <= i && i + |sub| <= |text| {
        assert (text + after)[i..i + |sub|] == text[i..i + |sub|];
      } else if 0 <= i && i + |sub| <= |text + after| {
        var last := i + |sub| - 1;
        assert (text + after)[i..i + |sub|][|sub| - 1] == (text + after)[last] == after[last - |text|];
      }
    }
  }

  /** A bracket stands where it is first written. */
  lemma IndexAt(before: string, c: char, after: string)
    requires Free(before, {c})
    ensures Index(before + ([c] + after), [c]) == Some(|before|)
  {
    var s := before + ([c] + after);
    IndexIsFirst(s, [c]);
    assert s[|before|..|before| + 1] == [c];
    assert OccursAt(s, [c], |before|);
    match Index(s, [c])
    case Some(i) => assert s[i..i + 1][0] == s[i];
    case None =>
  }

  lemma IndexNone(s: string, c: char)
    requires Free(s, {c})
    ensures Index(s, [c]) == None
  {
    forall i
      ensures !OccursAt(s, [c], i)
    {
      if 0 <= i < |s| {
        assert s[i..i + 1] == [s[i]];
      }
    }
    IndexIsFirst(s, [c]);
  }

  lemma NoRateWithoutParenthesis(s: string)
    requires Free(s, {'('})
    ensures Index(s, "rate(") == None
  {
    forall i
      ensures !OccursAt(s, "rate(", i)
    {
      if 0 <= i && i + 5 <= |s| {
        assert s[i..i + 5][4] == s[i + 4];
      }
    }
    IndexIsFirst(s, "rate(");
  }

  /** The search for a rate over a range looks at `text` alone when what is around it holds no part of one. */
  lemma RateWithin(before: string, text: string, after: string)
    requires forall i | 0 <= i < |before| :: !OccursAt(before + (text + after), "rate(", i)
    requires Free(after, {'(', '['})
    ensures RateArgument(before + (text + after)) == RateArgument(text)
  {
    IndexSkips(before, text + after, "rate(");
    IndexStops(text, after, "rate(");
    match Index(text, "rate(")
    case None =>
    case Some(i) =>
      RangeWithin(before, text, after, i + 5);
  }

  lemma RangeWithin(before: string, text: string, after: string, start: nat)
    requires start <= |text| && Free(after, {'['})
    ensures var query := before + (text + after);
            && Index(query[|before| + start..], "[") == Index(text[start..], "[")
            && forall end | start <= end <= |text| :: query[|before| + start..|before| + end] == text[start..end]
  {
    var query := before + (text + after);
    assert query[|before| + start..] == text[start..] + after;
    IndexStops(text[start..], after, "[");
  }

  /** A rate over a range is found where it is first written. */
  lemma RateFound(before: string, argument: string, after: string)
    requires argument != "" && Free(argument, {'['})
    requires forall i | 0 <= i < |before| :: !OccursAt(before + ("rate(" + (argument + ("[" + after))), "rate(", i)
    ensures RateArgument(before + ("rate(" + (argument + ("[" + after)))) == Some(argument)
  {
    var ranged := argument + ("[" + after);
    var query := before + ("rate(" + ranged);
    IndexSkips(before, "rate(" + ranged, "rate(");
    IndexIsFirst("rate(" + ranged, "rate(");
    assert OccursAt("rate(" + ranged, "rate(", 0);
    var start := |before| + 5;
    assert query[start..] == ranged;
    IndexAt(argument, '[', after);
    assert query[start..start + |argument|] == argument;
  }

  // ----- the name survives -----

  lemma IdentifierIsPlain(s: string)
    requires IsIdentifier(s)
    ensures Free(s, {'(', ')', '{', '[', '='}) && Free(s, SPACES)
  {
  }

  /** Stripping a selector leaves the metric. */
  lemma StrippedSelector(metric: string, rest: string)
    requires IsIdentifier(metric)
    ensures Stripped(metric) == metric
    ensures Stripped(metric + ("{" + rest)) == metric
  {
    IdentifierIsPlain(metric);
    IndexNone(metric, '{');
    IndexAt(metric, '{', rest);
    TrimKeepsMiddle(metric, {'(', ')'});
    TrimKeepsMiddle(metric, SPACES);
    assert (metric + ("{" + rest))[..|metric|] == metric;
  }

  /** Nothing ends in a parenthesis before the value of the label. */
  lemma NoRateBefore(metric: string, tag: string, text: string)
    requires IsIdentifier(metric) && IsIdentifier(tag)
    ensures forall i | 0 <= i < |metric + ("{" + (tag + "="))| ::
        !OccursAt(metric + ("{" + (tag + "=")) + text, "rate(", i)
  {
    var before := metric + ("{" + (tag + "="));
    IdentifierIsPlain(metric);
    IdentifierIsPlain(tag);
    forall i | 0 <= i < |before|
      ensures !OccursAt(before + text, "rate(", i)
    {
      NoRateAt(before, text, i);
    }
  }

  lemma NoRateAt(before: string, text: string, i: nat)
    requires i < |before| && before[|before| - 1] == '=' && '(' !in before
    ensures !OccursAt(before + text, "rate(", i)
  {
    var last := |before| - 1;
    if i + 5 <= |before + text| {
      var found := (before + text)[i..i + 5];
      assert i + 4 <= last ==> found[4] == before[i + 4];
      assert i + 4 > last ==> found[last - i] == before[last];
    }
  }

  /** Looking for a rate in a selector comes down to looking in the quoted service. */
  lemma RateInSelector(metric: string, tag: string, service: string)
    requires IsIdentifier(metric) && IsIdentifier(tag)
    ensures RateArgument(Selector(metric, tag, service)) == RateArgument(Quote(service))
  {
    var before, quoted := metric + ("{" + (tag + "=")), Quote(service);
    var query := Selector(metric, tag, service);
    assert query == before + (quoted + "}");
    NoRateBefore(metric, tag, quoted + "}");
    RateWithin(before, quoted, "}");
  }

  lemma NameInSelector(metric: string, tag: string, service: string)
    requires IsIdentifier(metric) && IsIdentifier(tag)
    ensures MetricName(Selector(metric, tag, service))
         == match RateArgument(Quote(service)) case Some(argument) => Stripped(argument) case None => metric
  {
    RateInSelector(metric, tag, service);
    StrippedSelector(metric, tag + "=" + (Quote(service) + "}"));
  }

  /** The name of a selector's metric is read back, for every metric, exactly when the quoted
      service does not itself hold what looks like a rate over a range. */
  lemma SelectorRoundTrip(tag: string, service: string)
    requires IsIdentifier(tag)
    ensures (forall metric | IsIdentifier(metric) :: MetricName(Selector(metric, tag, service)) == metric)
       <==> RateArgument(Quote(service)) == None
  {
    forall metric | IsIdentifier(metric)
      ensures MetricName(Selector(metric, tag, service))
           == match RateArgument(Quote(service)) case Some(argument) => Stripped(argument) case None => metric
    {
      NameInSelector(metric, tag, service);
    }
    if RateArgument(Quote(service)).Some? {
      assert MetricName(Selector("a", tag, service)) == MetricName(Selector("b", tag, service));
    }
  }

  lemma {:induction false} EscapedAllFree(s: string, c: char)
    requires c in {'(', '['} && Free(s, {c})
    ensures Free(EscapedAll(s), {c})
  {
    if s != "" {
      EscapedAllFree(s[..|s| - 1], c);
    }
  }

  /** A service without an opening parenthesis, or without an opening bracket, is never taken for a rate. */
  lemma PlainServicesHideNothing(service: string)
    requires Free(service, {'('}) || Free(service, {'['})
    ensures RateArgument(Quote(service)) == None
  {
    var quoted := Quote(service);
    if Free(service, {'('}) {
      EscapedAllFree(service, '(');
      NoRateWithoutParenthesis(quoted);
    } else {
      EscapedAllFree(service, '[');
      if i :| Index(quoted, "rate(") == Some(i) {
        assert Free(quoted[i + 5..], {'['});
        IndexNone(quoted[i + 5..], '[');
      }
    }
  }

  /** The metric a total query is about. */
  function TotalMetric(metrics: seq<string>): string
    requires metrics != []
  {
    if "spanmetrics_calls_total" in metrics then "spanmetrics_calls_total"
    else match FirstGeneric(metrics) case Some(m) => m case None => metrics[0]
  }

  lemma {:induction false} FirstGenericIsFirst(metrics: seq<string>)
    ensures match FirstGeneric(metrics)
            case Some(m) => exists k | 0 <= k < |metrics| ::
                m == metrics[k] && IsGeneric(m) && forall j | 0 <= j < k :: !IsGeneric(metrics[j])
            case None => forall k | 0 <= k < |metrics| :: !IsGeneric(metrics[k])
  {
    if metrics != [] && !IsGeneric(metrics[0]) {
      FirstGenericIsFirst(metrics[1..]);
      if FirstGeneric(metrics[1..]).Some? {
        var k :| 0 <= k < |metrics[1..]| && FirstGeneric(metrics[1..]).value == metrics[1..][k]
              && forall j | 0 <= j < k :: !IsGeneric(metrics[1..][j]);
        assert metrics[k + 1] == metrics[1..][k];
        assert forall j | 0 <= j < k + 1 :: j > 0 ==> metrics[j] == metrics[1..][j - 1];
      }
    }
  }

  // ----- which service a query selects -----

  lemma {:induction false} EscapedFirst(c: char, s: string)
    ensures EscapedAll([c] + s) == Escaped(c) + EscapedAll(s)
  {
    if s == "" {
      assert [c] + s == [c] && [c][..0] == "" && EscapedAll("") == "";
      assert Escaped(c) + "" == Escaped(c);
    } else {
      var front, last, all := s[..|s| - 1], s[|s| - 1], [c] + s;
      EscapedFirst(c, front);
      assert all[..|all| - 1] == [c] + front && all[|all| - 1] == last;
      Regroup(Escaped(c), EscapedAll(front), Escaped(last));
    }
  }

  /** What a byte is written as tells where it ends and which byte it was. */
  lemma CodeTells(a: char, b: char, x: string, y: string)
    requires Escaped(a) + x == Escaped(b) + y
    ensures a == b && x == y
  {
    var text := Escaped(a) + x;
    assert text[0] == Escaped(a)[0] == Escaped(b)[0];
    if text[0] == '\\' {
      assert text[1] == Escaped(a)[1] == Escaped(b)[1];
      if text[1] == 'x' {
        assert text[2] == Escaped(a)[2] == Escaped(b)[2];
        assert text[3] == Escaped(a)[3] == Escaped(b)[3];
      }
    }
    assert a == b;
    assert x == text[|Escaped(a)|..] == y;
  }

  lemma {:induction false} EscapedTells(a: string, b: string)
    requires EscapedAll(a) == EscapedAll(b)
    ensures a == b
    decreases |a|
  {
    if a != "" {
      assert a == [a[0]] + a[1..];
      EscapedFirst(a[0], a[1..]);
    }
    if b != "" {
      assert b == [b[0]] + b[1..];
      EscapedFirst(b[0], b[1..]);
    }
    if a != "" && b != "" {
      CodeTells(a[0], b[0], EscapedAll(a[1..]), EscapedAll(b[1..]));
      EscapedTells(a[1..], b[1..]);
    }
  }

  lemma QuoteTells(a: string, b: string)
    requires Quote(a) == Quote(b)
    ensures a == b
  {
    assert Quote(a)[1..|Quote(a)| - 1] == EscapedAll(a);
    assert Quote(b)[1..|Quote(b)| - 1] == EscapedAll(b);
    EscapedTells(a, b);
  }

  /** Up to the first `c` a text can be taken apart in one way. */
  lemma CutTells(a: string, b: string, c: char, x: string, y: string)
    requires Free(a, {c}) && Free(b, {c}) && a + ([c] + x) == b + ([c] + y)
    ensures a == b && x == y
  {
    var text := a + ([c] + x);
    assert text[|a|] == c && text[|b|] == c;
    assert forall i | 0 <= i < |a| :: text[i] == a[i];
    assert forall i | 0 <= i < |b| :: text[i] == b[i];
    assert |a| == |b|;
    assert a == text[..|a|] == b;
    assert x == text[|a| + 1..] == y;
  }

  /** From a selector its metric, its label and its service can be told, whatever bytes the service holds. */
  lemma SelectorTells(metric1: string, tag1: string, service1: string, metric2: string, tag2: string, service2: string)
    requires IsIdentifier(metric1) && IsIdentifier(metric2) && IsIdentifier(tag1) && IsIdentifier(tag2)
    requires Selector(metric1, tag1, service1) == Selector(metric2, tag2, service2)
    ensures metric1 == metric2 && tag1 == tag2 && service1 == service2
  {
    IdentifierIsPlain(metric1);
    IdentifierIsPlain(metric2);
    IdentifierIsPlain(tag1);
    IdentifierIsPlain(tag2);
    var quoted1, quoted2 := Quote(service1) + "}", Quote(service2) + "}";
    Regroup(tag1, "=", quoted1);
    Regroup(tag2, "=", quoted2);
    CutTells(metric1, metric2, '{', tag1 + ("=" + quoted1), tag2 + ("=" + quoted2));
    CutTells(tag1, tag2, '=', quoted1, quoted2);
    assert quoted1[..|quoted1| - 1] == Quote(service1) && quoted2[..|quoted2| - 1] == Quote(service2);
    QuoteTells(service1, service2);
  }

  /** The selector of a metric, if a label is given, and else the bare metric. */
  function Chosen(metric: string, tag: Option<string>, service: string): string {
    match tag case Some(t) => Selector(metric, t, service) case None => metric
  }

  lemma ChosenTells(metric: string, tag1: Option<string>, service1: string, tag2: Option<string>, service2: string)
    requires IsIdentifier(metric)
    requires (tag1.Some? ==> IsIdentifier(tag1.value)) && (tag2.Some? ==> IsIdentifier(tag2.value))
    ensures Chosen(metric, tag1, service1) == Chosen(metric, tag2, service2)
       <==> tag1 == tag2 && (tag1.None? || service1 == service2)
  {
    if tag1.Some? && tag2.Some? && Chosen(metric, tag1, service1) == Chosen(metric, tag2, service2) {
      SelectorTells(metric, tag1.value, service1, metric, tag2.value, service2);
    }
    assert tag1.Some? ==> |Chosen(metric, tag1, service1)| > |metric|;
    assert tag2.Some? ==> |Chosen(metric, tag2, service2)| > |metric|;
  }

  predicate HasOneOf(metrics: seq<string>, a: string, b: string, c: string) {
    exists k | 0 <= k < |metrics| :: metrics[k] == a || metrics[k] == b || metrics[k] == c
  }

  /** The label a total query selects its service by: the fixed one of the span metrics; for a
      generic metric the label detected, else the one configured, else `service`; and for any
      other metric one of the first two, if a query by it has data. */
  ghost function TotalTag(service: string, metrics: seq<string>, detectedTag: string, serviceTag: string,
                          works: string -> bool): Option<string>
    requires metrics != []
  {
    if "spanmetrics_calls_total" in metrics then Some("service_name")
    else if HasOneOf(metrics, "calls_total", "http_requests_total", "rpc_server_calls_total") then
      if detectedTag != "" then Some(detectedTag) else if serviceTag != "" then Some(serviceTag) else Some("service")
    else if detectedTag != "" then
      if works("count(" + Selector(metrics[0], detectedTag, service) + ")") then Some(detectedTag) else None
    else if serviceTag != "" && works("count(" + Selector(metrics[0], serviceTag, service) + ")") then Some(serviceTag)
    else None
  }

  /** The label a latency query selects its service by: the fixed one of the span metrics, or
      the one detected, else the one configured, if a query by it has data. */
  ghost function LatencyTag(metric: string, bucketMetric: string, service: string, detectedTag: string,
                            serviceTag: string, works: string -> bool): Option<string>
  {
    if metric == "spanmetrics_latency_bucket" then Some("service_name")
    else if detectedTag != "" then
      if works("count(" + Selector(bucketMetric, detectedTag, service) + ")") then Some(detectedTag) else None
    else if serviceTag != "" && works("count(" + Selector(bucketMetric, serviceTag, service) + ")") then
      Some(serviceTag)
    else None
  }

  /** A name that ends in `_bucket` is its own bucket form, to any other the ending is added. */
  lemma BucketFormMeans(metric: string)
    ensures if exists stem :: metric == stem + "_bucket" then BucketForm(metric) == metric
            else BucketForm(metric) == metric + "_bucket"
  {
    var suffix := "_bucket";
    if stem :| metric == stem + suffix {
      assert metric[|metric| - |suffix|..] == suffix;
    }
    if HasSuffix(metric, suffix) {
      assert metric == metric[..|metric| - |suffix|] + suffix;
    }
  }

  lemma LatencyQueryForm(metric: string, service: string, detectedTag: string, serviceTag: string,
      works: string -> bool)
    ensures LatencyQuery(metric, service, detectedTag, serviceTag, works)
         == Percentile(Chosen(BucketForm(metric),
                              LatencyTag(metric, BucketForm(metric), service, detectedTag, serviceTag, works), service))
  {
    assert metric == "spanmetrics_latency_bucket" ==> BucketForm(metric) == metric;
  }

  lemma PercentileTells(a: string, b: string)
    requires Percentile(a) == Percentile(b)
    ensures a == b
  {
    var n := |PERCENTILE| + 5;
    var after := "[15m])) by (le))";
    assert Percentile(a)[n..n + |a|] == a && |Percentile(a)| == n + |a| + |after|;
    assert Percentile(b)[n..n + |b|] == b && |Percentile(b)| == n + |b| + |after|;
  }

  lemma PercentilesSame(a: string, b: string)
    ensures Percentile(a) == Percentile(b) <==> a == b
  {
    if Percentile(a) == Percentile(b) {
      PercentileTells(a, b);
    }
  }

  lemma BucketFormIsIdentifier(metric: string)
    requires IsIdentifier(metric)
    ensures IsIdentifier(BucketForm(metric))
  {
  }

  lemma LatencyTagIsIdentifier(metric: string, bucketMetric: string, service: string, detectedTag: string,
      serviceTag: string, works: string -> bool)
    requires IsIdentifier(detectedTag) && IsIdentifier(serviceTag)
    ensures var tag := LatencyTag(metric, bucketMetric, service, detectedTag, serviceTag, works);
            tag.Some? ==> IsIdentifier(tag.value)
  {
  }

  /** Two services get the same latency query exactly when they are the same or no label selects either. */
  lemma SameLatencyQuery(metric: string, a: string, b: string, detectedTag: string, serviceTag: string,
      works: string -> bool)
    requires IsIdentifier(metric) && IsIdentifier(detectedTag) && IsIdentifier(serviceTag)
    ensures LatencyQuery(metric, a, detectedTag, serviceTag, works)
         == LatencyQuery(metric, b, detectedTag, serviceTag, works)
       <==> || a == b
            || (&& LatencyTag(metric, BucketForm(metric), a, detectedTag, serviceTag, works) == None
                && LatencyTag(metric, BucketForm(metric), b, detectedTag, serviceTag, works) == None)
  {
    var bucketMetric := BucketForm(metric);
    var tagA := LatencyTag(metric, bucketMetric, a, detectedTag, serviceTag, works);
    var tagB := LatencyTag(metric, bucketMetric, b, detectedTag, serviceTag, works);
    LatencyQueryForm(metric, a, detectedTag, serviceTag, works);
    LatencyQueryForm(metric, b, detectedTag, serviceTag, works);
    LatencyTagIsIdentifier(metric, bucketMetric, a, detectedTag, serviceTag, works);
    LatencyTagIsIdentifier(metric, bucketMetric, b, detectedTag, serviceTag, works);
    BucketFormIsIdentifier(metric);
    ChosenTells(bucketMetric, tagA, a, tagB, b);
    PercentilesSame(Chosen(bucketMetric, tagA, a), Chosen(bucketMetric, tagB, b));
  }

  /** And the same total query exactly then too. */
  lemma SameTotalQuery(a: string, b: string, metrics: seq<string>, detectedTag: string, serviceTag: string,
      works: string -> bool)
    requires metrics != [] && IsIdentifier(TotalMetric(metrics))
    requires IsIdentifier(detectedTag) && IsIdentifier(serviceTag)
    ensures TotalQuery(a, metrics, detectedTag, serviceTag, works)
         == TotalQuery(b, metrics, detectedTag, serviceTag, works)
       <==> || a == b
            || (&& TotalTag(a, metrics, detectedTag, serviceTag, works) == None
                && TotalTag(b, metrics, detectedTag, serviceTag, works) == None)
  {
    var tagA := TotalQueryForm(a, metrics, detectedTag, serviceTag, works);
    var tagB := TotalQueryForm(b, metrics, detectedTag, serviceTag, works);
    ChosenTells(TotalMetric(metrics), tagA, a, tagB, b);
  }

  lemma GenericIsFound(metrics: seq<string>)
    ensures FirstGeneric(metrics).Some?
       <==> HasOneOf(metrics, "calls_total", "http_requests_total", "rpc_server_calls_total")
  {
    FirstGenericIsFirst(metrics);
  }

  /** A total query is a selector of its metric, or the bare metric. */
  lemma TotalQueryForm(service: string, metrics: seq<string>, detectedTag: string, serviceTag: string,
      works: string -> bool)
    returns (tag: Option<string>)
    requires metrics != [] && IsIdentifier(detectedTag) && IsIdentifier(serviceTag)
    ensures tag.Some? ==> IsIdentifier(tag.value)
    ensures tag == TotalTag(service, metrics, detectedTag, serviceTag, works)
    ensures TotalQuery(service, metrics, detectedTag, serviceTag, works)
         == match tag case Some(t) => Selector(TotalMetric(metrics), t, service) case None => TotalMetric(metrics)
  {
    GenericIsFound(metrics);
    var own := if detectedTag == "" then serviceTag else detectedTag;
    if "spanmetrics_calls_total" in metrics {
      tag := Some("service_name");
    } else if FirstGeneric(metrics).Some? {
      tag := Some(if own == "" then "service" else own);
    } else if own != "" && works("count(" + Selector(metrics[0], own, service) + ")") {
      tag := Some(own);
    } else {
      tag := None;
    }
  }

  /** From every total query the metric it selects is read back. */
  lemma TotalQueryRoundTrip(service: string, metrics: seq<string>, detectedTag: string, serviceTag: string,
      works: string -> bool)
    requires metrics != [] && (forall m | m in metrics :: IsIdentifier(m))
    requires IsIdentifier(detectedTag) && IsIdentifier(serviceTag)
    requires RateArgument(Quote(service)) == None
    ensures MetricName(TotalQuery(service, metrics, detectedTag, serviceTag, works)) == TotalMetric(metrics)
  {
    var tag := TotalQueryForm(service, metrics, detectedTag, serviceTag, works);
    FirstGenericIsFirst(metrics);
    assert TotalMetric(metrics) in metrics;
    match tag
    case Some(t) => NameInSelector(TotalMetric(metrics), t, service);
    case None => BareMetric(TotalMetric(metrics));
  }

  lemma BareMetric(metric: string)
    requires IsIdentifier(metric)
    ensures MetricName(metric) == metric
  {
    IdentifierIsPlain(metric);
    StrippedSelector(metric, "");
    NoRateWithoutParenthesis(metric);
  }

  lemma NoRateInPercentile(text: string)
    ensures forall i | 0 <= i < |PERCENTILE| :: !OccursAt(PERCENTILE + text, "rate(", i)
  {
    forall i | 0 <= i < |PERCENTILE| && OccursAt(PERCENTILE + text, "rate(", i)
      ensures false
    {
      var found := (PERCENTILE + text)[i..i + 5];
      assert found[0] == PERCENTILE[i] && found[2] == (PERCENTILE + text)[i + 2];
      OneR(i);
    }
  }

  lemma OneR(i: nat)
    requires i < |PERCENTILE| && PERCENTILE[i] == 'r'
    ensures i + 2 < |PERCENTILE| && PERCENTILE[i + 2] != 't'
  {
  }

  /** What is between the rate's parenthesis and the first bracket. */
  lemma PercentileArgument(selector: string) returns (end: nat)
    requires selector != "" && selector[0] != '['
    ensures 0 < end <= |selector| && RateArgument(Percentile(selector)) == Some(selector[..end])
    ensures end < |selector| ==> selector[end] == '['
  {
    var tail := selector + "[15m])) by (le))";
    end := FirstBracket(tail, |selector|);
    assert tail == selector[..end] + ("[" + tail[end + 1..]);
    assert Free(selector[..end], {'['}) by {
      assert forall k | 0 <= k < end :: selector[k] == tail[k];
    }
    NoRateInPercentile("rate(" + tail);
    RateFound(PERCENTILE, selector[..end], tail[end + 1..]);
  }

  lemma {:induction false} FirstBracket(text: string, bound: nat) returns (at: nat)
    requires bound < |text| && text[bound] == '['
    ensures at <= bound && text[at] == '[' && forall k | 0 <= k < at :: text[k] != '['
  {
    at := bound;
    if k :| 0 <= k < bound && text[k] == '[' {
      at := FirstBracket(text, k);
    }
  }

  lemma NameInPercentile(metric: string, rest: string)
    requires IsIdentifier(metric) && metric != "" && (rest == "" || rest[0] == '{')
    ensures MetricName(Percentile(metric + rest)) == metric
  {
    IdentifierIsPlain(metric);
    var end := PercentileArgument(metric + rest);
    assert forall k | 0 <= k < |metric| :: (metric + rest)[k] == metric[k] != '[';
    StrippedBeginning(metric, rest, end);
  }

  lemma StrippedBeginning(metric: string, rest: string, end: nat)
    requires IsIdentifier(metric) && (rest == "" || rest[0] == '{') && |metric| <= end <= |metric + rest|
    ensures Stripped((metric + rest)[..end]) == metric
  {
    if end == |metric| {
      assert (metric + rest)[..end] == metric;
      StrippedSelector(metric, "");
    } else {
      assert (metric + rest)[..end] == metric + ("{" + rest[1..end - |metric|]);
      StrippedSelector(metric, rest[1..end - |metric|]);
    }
  }

  lemma SelectorInPercentile(metric: string, tag: string, service: string)
    requires IsIdentifier(metric) && metric != ""
    ensures MetricName(Percentile(Selector(metric, tag, service))) == metric
    ensures MetricName(Percentile(metric)) == metric
  {
    NameInPercentile(metric, "{" + (tag + "=" + (Quote(service) + "}")));
    NameInPercentile(metric, "");
    assert metric + "" == metric;
  }

  /** From every latency query, whatever the service, the metric is read back in its bucket form. */
  lemma LatencyQueryRoundTrip(metric: string, service: string, detectedTag: string, serviceTag: string,
      works: string -> bool)
    requires IsIdentifier(metric) && IsIdentifier(detectedTag) && IsIdentifier(serviceTag)
    ensures MetricName(LatencyQuery(metric, service, detectedTag, serviceTag, works)) == BucketForm(metric)
  {
    var tag := if detectedTag == "" then serviceTag else detectedTag;
    var bucketMetric := BucketForm(metric);
    assert metric == "spanmetrics_latency_bucket" ==> bucketMetric == metric;
    SelectorInPercentile(bucketMetric, "service_name", service);
    SelectorInPercentile(bucketMetric, tag, service);
  }

  lemma {:induction false} EscapedAllPlain(s: string)
    requires forall i | 0 <= i < |s| :: Escaped(s[i]) == [s[i]]
    ensures EscapedAll(s) == s
  {
    if s != "" {
      EscapedAllPlain(s[..|s| - 1]);
      assert s == s[..|s| - 1] + [s[|s| - 1]];
    }
  }

  /** Quoting changes nothing in these. */
  predicate IsPlain(s: string) {
    forall i | 0 <= i < |s| :: IsIdentifier([s[i]]) || s[i] in {'(', '['}
  }

  lemma QuotePlain(s: string)
    requires IsPlain(s)
    ensures Quote(s) == "\"" + (s + "\"")
  {
    forall i | 0 <= i < |s|
      ensures Escaped(s[i]) == [s[i]]
    {
      assert IsIdentifier([s[i]]) ==>
          'a' <= [s[i]][0] <= 'z' || 'A' <= s[i] <= 'Z' || '0' <= s[i] <= '9' || s[i] == '_' || s[i] == ':';
    }
    EscapedAllPlain(s);
  }

  lemma QuotedRate(name: string)
    requires IsIdentifier(name) && name != ""
    ensures RateArgument(Quote("rate(" + (name + "["))) == Some(name)
  {
    QuotePlain("rate(" + (name + "["));
    IdentifierIsPlain(name);
    var quoted := "\"" + ("rate(" + (name + ("[" + "\"")));
    assert Quote("rate(" + (name + "[")) == quoted;
    assert !OccursAt(quoted, "rate(", 0) by {
      assert quoted[0..5][0] == '\"';
    }
    RateFound("\"", name, "\"");
  }

  /** Services that do hold what looks like a rate: the name in it is read back, whatever the metric was. */
  lemma HiddenRateMisread(metric: string, tag: string, name: string)
    requires IsIdentifier(metric) && IsIdentifier(tag) && IsIdentifier(name) && name != ""
    ensures MetricName(Selector(metric, tag, "rate(" + (name + "["))) == name
  {
    QuotedRate(name);
    NameInSelector(metric, tag, "rate(" + (name + "["));
    StrippedSelector(name, "");
  }
}
