/** processAlert and apply, step by step as the handler takes them, proved to have
    the effects of AlertEffects. */
module AlertProcessing {
  import opened Text
  import opened AlertEffects
  import opened AlertOutcomes
  import opened Collections
  import opened FingerprintCaching
  import opened FingerprintKeys

  /** An alert whose labels are already trimmed and lower-cased. */
  datatype Alert = Alert(status: string, labels: Labels, annotations: Labels, fingerprint: string)

  datatype Rule = Rule(match_: Labels, severity: string, title: string, mode: Mode)

  datatype Counts = Counts(received: nat, deduped: nat, created: nat, suggested: nat, failed: nat) {
    function Plus(e: Effect): Counts {
      Counts(received, deduped + One(e.counter == Deduped), created + One(e.counter == Created),
             suggested + One(e.counter == Suggested), failed + e.failed)
    }
  }

  /** The atomic counters. */
  class Metrics {
    var received: nat
    var deduped: nat
    var created: nat
    var suggested: nat
    var failed: nat

    constructor ()
      ensures Now() == Counts(0, 0, 0, 0, 0)
    {
      received, deduped, created, suggested, failed := 0, 0, 0, 0, 0;
    }

    function Now(): Counts
      reads this
    {
      Counts(received, deduped, created, suggested, failed)
    }

    method IncReceived()
      modifies this
      ensures Now() == old(Now()).(received := old(received) + 1)
    {
      received := received + 1;
    }

    method IncDeduped()
      modifies this
      ensures Now() == old(Now()).(deduped := old(deduped) + 1)
    {
      deduped := deduped + 1;
    }

    method IncCreated()
      modifies this
      ensures Now() == old(Now()).(created := old(created) + 1)
    {
      created := created + 1;
    }

    method IncSuggested()
      modifies this
      ensures Now() == old(Now()).(suggested := old(suggested) + 1)
    {
      suggested := suggested + 1;
    }

    method IncFailed()
      modifies this
      ensures Now() == old(Now()).(failed := old(failed) + 1)
    {
      failed := failed + 1;
    }
  }

  /** The incident service and the history log: they answer as they please and record what is written. */
  class IncidentService {
    const answers: Answers
    var writes: Trail<Write>

    constructor (answers: Answers)
      ensures this.answers == answers && writes == Empty
    {
      this.answers := answers;
      writes := Empty;
    }

    method Put(w: Write)
      modifies this
      ensures writes == Then(old(writes), w)
    {
      writes := Then(writes, w);
    }
  }

  // ----- rules and titles -----

  predicate Matches(rule: Rule, labels: Labels) {
    forall key | key in rule.match_ :: (if key in labels then labels[key] else "") == rule.match_[key]
  }

  /** Each label the rule asks for has the value it asks for; a missing label counts as empty. */
  ghost predicate Applies(rule: Rule, labels: Labels) {
    forall key | key in rule.match_ :: if key in labels then labels[key] == rule.match_[key] else rule.match_[key] == ""
  }

  ghost predicate FirstApplies(rules: seq<Rule>, n: nat, labels: Labels) {
    n < |rules| && Applies(rules[n], labels) && forall m | 0 <= m < n :: !Applies(rules[m], labels)
  }

  lemma MatchingApplies(rule: Rule, labels: Labels)
    ensures Matches(rule, labels) <==> Applies(rule, labels)
  {
  }

  lemma {:induction false} FirstMatchApplies(rules: seq<Rule>, labels: Labels)
    ensures match FirstMatch(rules, labels)
            case Some(r) => exists n: nat :: FirstApplies(rules, n, labels) && rules[n] == r
            case None => forall n: nat | n < |rules| :: !Applies(rules[n], labels)
  {
    if rules != [] {
      MatchingApplies(rules[0], labels);
      if Matches(rules[0], labels) {
        assert FirstApplies(rules, 0, labels);
      } else {
        FirstMatchApplies(rules[1..], labels);
        assert forall n: nat | n < |rules| - 1 :: rules[1..][n] == rules[n + 1];
        if FirstMatch(rules, labels).Some? {
          var n: nat :| FirstApplies(rules[1..], n, labels) && rules[1..][n] == FirstMatch(rules, labels).value;
          AppliesLater(rules, n, labels);
        }
      }
    }
  }

  lemma AppliesLater(rules: seq<Rule>, n: nat, labels: Labels)
    requires rules != [] && !Applies(rules[0], labels) && FirstApplies(rules[1..], n, labels)
    ensures FirstApplies(rules, n + 1, labels)
  {
    forall m | 0 <= m < n + 1
      ensures !Applies(rules[m], labels)
    {
      if m > 0 {
        assert rules[1..][m - 1] == rules[m];
      }
    }
  }

  /** matchRule: the first rule that matches. */
  method MatchRule(rules: seq<Rule>, labels: Labels) returns (rule: Option<Rule>)
    ensures rule == FirstMatch(rules, labels)
    ensures match rule
            case Some(r) => exists n: nat :: FirstApplies(rules, n, labels) && rules[n] == r
            case None => forall n: nat | n < |rules| :: !Applies(rules[n], labels)
  {
    FirstMatchApplies(rules, labels);
    for n := 0 to |rules|
      invariant FirstMatch(rules, labels) == FirstMatch(rules[n..], labels)
    {
      if Matches(rules[n], labels) {
        return Some(rules[n]);
      }
      assert rules[n..][1..] == rules[n + 1..];
    }
    return None;
  }

  function FirstMatch(rules: seq<Rule>, labels: Labels): Option<Rule> {
    if rules == [] then None
    else if Matches(rules[0], labels) then Some(rules[0])
    else FirstMatch(rules[1..], labels)
  }

  function Get(m: Labels, key: string): string {
    if key in m then m[key] else ""
  }

  function ResolveTitle(ruleTitle: string, alert: Alert): string {
    if TrimSpace(ruleTitle) != "" then TrimSpace(ruleTitle)
    else if TrimSpace(Get(alert.annotations, "summary")) != "" then TrimSpace(Get(alert.annotations, "summary"))
    else TrimSpace(Get(alert.labels, "alertname"))
  }

  function MakeRequest(service: string, severity: string, mode: Mode, title: string, alert: Alert): Request {
    Request(service, severity, mode, title, Get(alert.labels, "alertname"), alert.status == "resolved",
            Get(alert.annotations, "summary") != "", Get(alert.annotations, "description") != "")
  }

  function RuleRequest(rule: Rule, alert: Alert): Request {
    var title := ResolveTitle(rule.title, alert);
    MakeRequest(Get(rule.match_, "service"), rule.severity, rule.mode,
                if TrimSpace(title) == "" then Get(alert.labels, "alertname") else title, alert)
  }

  /** Alerts from the SLO source open an incident of severity P2 even without a rule. */
  function FallbackRequest(alert: Alert): Request {
    var title := ResolveTitle("", alert);
    MakeRequest(Get(alert.labels, "service"), "P2", AutoMode,
                if title != "" then title else Get(alert.labels, "alertname"), alert)
  }

  // ----- what one alert does -----

  /** The effect of an alert, given whether the cache has just seen its key. */
  function AlertEffect(rules: seq<Rule>, alert: Alert, seen: bool, a: Answers, dryRun: bool): Effect {
    var name := Get(alert.labels, "alertname");
    if name == "" then NOTHING.(warnings := Then(Empty, MissingName))
    else if seen then NOTHING.(counter := Deduped, warnings := Then(Empty, DuplicateSkipped(name)))
    else PassedEffect(rules, alert, a, dryRun)
  }

  /** The effect of an alert that got past deduplication. */
  function PassedEffect(rules: seq<Rule>, alert: Alert, a: Answers, dryRun: bool): Effect {
    match FirstMatch(rules, alert.labels)
    case Some(rule) => ApplyEffect(RuleRequest(rule, alert), a, dryRun)
    case None =>
      if Get(alert.labels, "source") != "slo" then
        NOTHING.(warnings := Then(Empty, NoRule(Get(alert.labels, "alertname"))))
      else if dryRun then NOTHING.(decisions := Then(Empty, WouldCreateDefault(Get(alert.labels, "service"))))
      else ApplyEffect(FallbackRequest(alert), a, false)
  }

  /** The key the alert is looked up by; none for an alert without a name. */
  ghost function LookupKey(alert: Alert, digest: string -> string): string {
    if Get(alert.labels, "alertname") == "" then "" else KeyOf(alert.fingerprint, alert.labels, digest)
  }

  /** An alert without a name is not looked up; otherwise its own fingerprint is its key, and
      without one its name, service and labels are, if it has a service. */
  lemma LookupKeyMeans(alert: Alert, digest: string -> string)
    ensures var name, service := Get(alert.labels, "alertname"), Get(alert.labels, "service");
            LookupKey(alert, digest)
            == if name == "" then ""
               else if TrimSpace(alert.fingerprint) != "" then TrimSpace(alert.fingerprint)
               else if service == "" then ""
               else digest(Canonical(name, service, alert.labels))
  {
  }

  // ----- what an alert asks for -----

  /** The first of the texts that is not empty. */
  function FirstGiven(texts: seq<string>): string {
    if texts == [] then "" else if texts[0] != "" then texts[0] else FirstGiven(texts[1..])
  }

  /** What the alert says of itself whatever the rule. */
  predicate SaysOfItself(req: Request, alert: Alert) {
    && req.alertName == Get(alert.labels, "alertname")
    && (req.resolved <==> alert.status == "resolved")
    && (req.hasSummary <==> Get(alert.annotations, "summary") != "")
    && (req.hasDescription <==> Get(alert.annotations, "description") != "")
  }

  /** The request has the rule's service, severity and mode; its title is the rule's, else the
      alert's summary, else its name, each trimmed, else its name as it is. */
  ghost predicate AskedByRule(req: Request, rule: Rule, alert: Alert) {
    && SaysOfItself(req, alert)
    && req.service == Get(rule.match_, "service") && req.severity == rule.severity && req.mode == rule.mode
    && req.title == FirstGiven([TrimSpace(rule.title), TrimSpace(Get(alert.annotations, "summary")),
                                TrimSpace(Get(alert.labels, "alertname")), Get(alert.labels, "alertname")])
  }

  /** Without a rule an alert of the SLO source asks for an automatic incident of severity P2 for its own service. */
  ghost predicate AskedByDefault(req: Request, alert: Alert) {
    && SaysOfItself(req, alert)
    && req.service == Get(alert.labels, "service") && req.severity == "P2" && req.mode == AutoMode
    && req.title == FirstGiven([TrimSpace(Get(alert.annotations, "summary")),
                                TrimSpace(Get(alert.labels, "alertname")), Get(alert.labels, "alertname")])
  }

  /** What becomes of an alert: without a name or seen before it is only warned of; the first
      rule that applies says what is asked for, and without one the SLO source does. */
  ghost predicate Handled(rules: seq<Rule>, alert: Alert, seen: bool, a: Answers, dryRun: bool, e: Effect) {
    var name := Get(alert.labels, "alertname");
    if name == "" then e == Effect(NoCounter, 0, Empty, Empty, Then(Empty, MissingName))
    else if seen then e == Effect(Deduped, 0, Empty, Empty, Then(Empty, DuplicateSkipped(name)))
    else if exists n: nat :: FirstApplies(rules, n, alert.labels) then
      exists n: nat, req :: FirstApplies(rules, n, alert.labels) && AskedByRule(req, rules[n], alert)
                            && Outcome(req, a, dryRun, e)
    else if Get(alert.labels, "source") != "slo" then
      e == Effect(NoCounter, 0, Empty, Empty, Then(Empty, NoRule(name)))
    else if dryRun then
      e == Effect(NoCounter, 0, Empty, Then(Empty, WouldCreateDefault(Get(alert.labels, "service"))), Empty)
    else exists req :: AskedByDefault(req, alert) && Outcome(req, a, false, e)
  }

  lemma TitleGiven(ruleTitle: string, alert: Alert)
    ensures var name := Get(alert.labels, "alertname");
            var title := ResolveTitle(ruleTitle, alert);
            && TrimSpace(title) == title
            && (if title == "" then name else title)
               == FirstGiven([TrimSpace(ruleTitle), TrimSpace(Get(alert.annotations, "summary")),
                              TrimSpace(name), name])
  {
    TrimSpaceTwice(ruleTitle);
    TrimSpaceTwice(Get(alert.annotations, "summary"));
    TrimSpaceTwice(Get(alert.labels, "alertname"));
    FirstOfFour(TrimSpace(ruleTitle), TrimSpace(Get(alert.annotations, "summary")),
                TrimSpace(Get(alert.labels, "alertname")), Get(alert.labels, "alertname"));
  }

  lemma FirstOfFour(a: string, b: string, c: string, d: string)
    ensures FirstGiven([a, b, c, d]) == if a != "" then a else FirstGiven([b, c, d])
    ensures FirstGiven([b, c, d]) == if b != "" then b else if c != "" then c else d
  {
    assert [a, b, c, d][1..] == [b, c, d] && [b, c, d][1..] == [c, d] && [c, d][1..] == [d] && [d][1..] == [];
    assert FirstGiven([d]) == d && FirstGiven([c, d]) == if c != "" then c else d;
  }

  lemma RuleAsks(rule: Rule, alert: Alert)
    ensures AskedByRule(RuleRequest(rule, alert), rule, alert)
  {
    TitleGiven(rule.title, alert);
  }

  lemma DefaultAsks(alert: Alert)
    ensures AskedByDefault(FallbackRequest(alert), alert)
  {
    TitleGiven("", alert);
    assert TrimSpace("") == "";
    FirstOfFour("", TrimSpace(Get(alert.annotations, "summary")), TrimSpace(Get(alert.labels, "alertname")),
                Get(alert.labels, "alertname"));
  }

  lemma AlertHandled(rules: seq<Rule>, alert: Alert, seen: bool, a: Answers, dryRun: bool)
    ensures Handled(rules, alert, seen, a, dryRun, AlertEffect(rules, alert, seen, a, dryRun))
  {
    FirstMatchApplies(rules, alert.labels);
    match FirstMatch(rules, alert.labels)
    case Some(rule) =>
      RuleAsks(rule, alert);
      OutcomeExactly(RuleRequest(rule, alert), a, dryRun);
    case None =>
      assert !exists n: nat :: FirstApplies(rules, n, alert.labels);
      DefaultAsks(alert);
      OutcomeExactly(FallbackRequest(alert), a, false);
  }

  /** A dry run of an alert the cache has not seen counts it nowhere and writes nothing. */
  lemma DryRunOfAlert(rules: seq<Rule>, alert: Alert, seen: bool, a: Answers)
    ensures AlertEffect(rules, alert, seen, a, true).writes == Empty
    ensures AlertEffect(rules, alert, seen, a, true).counter == Deduped
        <==> seen && Get(alert.labels, "alertname") != ""
    ensures AlertEffect(rules, alert, seen, a, true).counter in {NoCounter, Deduped}
  {
    match FirstMatch(rules, alert.labels)
    case None =>
    case Some(rule) => DryRunWritesNothing(RuleRequest(rule, alert), a);
  }

  /** The alert was counted as received, and as its effect says. */
  ghost predicate AddedUp(before: Counts, after: Counts, e: Effect) {
    && after.received == before.received + 1
    && after.deduped == before.deduped + (if e.counter == Deduped then 1 else 0)
    && after.created == before.created + (if e.counter == Created then 1 else 0)
    && after.suggested == before.suggested + (if e.counter == Suggested then 1 else 0)
    && after.failed == before.failed + e.failed
  }

  /** Received once, and settled once at most. */
  ghost predicate AtMostOneMore(before: Counts, after: Counts) {
    && after.received == before.received + 1
    && after.deduped >= before.deduped && after.created >= before.created && after.suggested >= before.suggested
    && after.deduped + after.created + after.suggested <= before.deduped + before.created + before.suggested + 1
  }

  lemma PlusAddsUp(before: Counts, e: Effect)
    ensures var after := before.(received := before.received + 1).Plus(e);
            AddedUp(before, after, e) && AtMostOneMore(before, after)
  {
  }

  /** The alert was counted in the one counter called for, and its failures in another. */
  ghost predicate CountedOnce(before: Counts, after: Counts, req: Request, a: Answers, dryRun: bool) {
    && after.received == before.received
    && after.deduped == before.deduped + One(!dryRun && Target(req, a).Some?)
    && after.created == before.created + One(!dryRun && NewIncident(req, a).Some? && !Suggests(req, a))
    && after.suggested == before.suggested + One(!dryRun && NewIncident(req, a).Some? && Suggests(req, a))
    && after.failed == before.failed + FailuresCounted(req, a, dryRun)
  }

  /** The effect of apply is what is called for, on the counters and on whatever it panics before. */
  lemma Meets(req: Request, a: Answers, dryRun: bool)
    ensures var e := ApplyEffect(req, a, dryRun);
            && Outcome(req, a, dryRun, e)
            && (e.counter != NoCounter <==> !dryRun && (Target(req, a).Some? || NewIncident(req, a).Some?))
            && (e.counter != NoCounter ==> WroteBeforeCount(req, a, MadeBeforeCount(e)))
            && forall before: Counts :: CountedOnce(before, before.Plus(e), req, a, dryRun)
  {
    var e := ApplyEffect(req, a, dryRun);
    OutcomeExactly(req, a, dryRun);
    if e.counter != NoCounter {
      DryRunWritesNothing(req, a);
      PanicExactly(req, a);
    }
    forall before: Counts
      ensures CountedOnce(before, before.Plus(e), req, a, dryRun)
    {
      CountsOnce(req, a, dryRun, e, before);
    }
  }

  lemma CountsOnce(req: Request, a: Answers, dryRun: bool, e: Effect, before: Counts)
    requires IsCounted(req, a, dryRun, e.counter) && e.failed == FailuresCounted(req, a, dryRun)
    ensures CountedOnce(before, before.Plus(e), req, a, dryRun)
  {
  }

  class Processor {
    const svc: IncidentService
    const cache: FingerprintCache?
    const stats: Metrics?
    const rules: seq<Rule>

    constructor (svc: IncidentService, cache: FingerprintCache?, stats: Metrics?, rules: seq<Rule>)
      ensures this.svc == svc && this.cache == cache && this.stats == stats && this.rules == rules
    {
      this.svc, this.cache, this.stats, this.rules := svc, cache, stats, rules;
    }

    /** Counts a failure if there are counters. */
    method Fail()
      modifies stats
      ensures stats != null ==> stats.Now() == old(stats.Now()).(failed := old(stats.failed) + 1)
    {
      if stats != null {
        stats.IncFailed();
      }
    }

    /** `e` has been done: its writes made, its counters added to, and this said. Without
        counters an alert that must be counted has panicked instead, when it came to that. */
    ghost predicate Done(e: Effect, decisions: Trail<Decision>, warnings: Trail<Warning>, crashed: bool)
      reads this, svc, stats
    {
      && crashed == (stats == null && e.counter != NoCounter)
      && (if crashed then svc.writes == MadeBeforeCount(e)
          else svc.writes == e.writes && decisions == e.decisions && warnings == e.warnings)
    }

    /** The severity of an incident is raised to the alert's if that is higher. */
    method Escalate(req: Request, target: IncidentRef, warnings0: Trail<Warning>)
      returns (escalated: bool, warnings: Trail<Warning>)
      modifies svc
      ensures var higher := Rank(req.severity) > Rank(target.severity);
              && escalated == (higher && !svc.answers.severityFails)
              && svc.writes == When(old(svc.writes), higher, UpdateSeverity(target.id, req.severity))
              && warnings == When(warnings0, higher && svc.answers.severityFails, SeverityFailed)
    {
      escalated, warnings := false, warnings0;
      if Rank(req.severity) > Rank(target.severity) {
        svc.Put(UpdateSeverity(target.id, req.severity));
        if svc.answers.severityFails {
          warnings := Then(warnings, SeverityFailed);
        } else {
          escalated := true;
        }
      }
    }

    /** Attaching to an incident: the alert is counted before it is noted. */
    method Attach(req: Request, target: IncidentRef, isActive: bool, dryRun: bool, ghost e0: Effect,
                  decisions0: Trail<Decision>, warnings0: Trail<Warning>)
      returns (decisions: Trail<Decision>, warnings: Trail<Warning>, crashed: bool)
      requires e0.counter == NoCounter && svc.writes == e0.writes && decisions0 == e0.decisions
          && warnings0 == e0.warnings
      modifies stats, svc
      ensures var e := AttachEffect(req, target, isActive, svc.answers, dryRun, e0);
              && Done(e, decisions, warnings, crashed)
              && (stats != null ==> stats.Now() == old(stats.Now()).Plus(e.(failed := e.failed - e0.failed)))
    {
      decisions, warnings, crashed := decisions0, warnings0, false;
      if dryRun {
        if Rank(req.severity) > Rank(target.severity) {
          decisions := Then(decisions, WouldEscalate(target.id, req.severity));
        }
        decisions := Then(decisions, WouldNote(target.id, req.alertName));
        return;
      }
      var escalated: bool;
      escalated, warnings := Escalate(req, target, warnings);
      if stats == null {
        crashed := true;
        return;
      }
      stats.IncDeduped();
      svc.Put(NoteAlert(target.id));
      if svc.answers.noteFails {
        warnings := Then(warnings, NoteFailed);
        stats.IncFailed();
      }
      svc.Put(History(if isActive then DedupedActive else NotedSuggested));
      if svc.answers.historyFails {
        warnings := Then(warnings, HistoryFailed);
      }
      decisions := Then(decisions, if isActive then AttachedToActive(target.id, req.alertName, escalated)
                                   else AttachedToSuggested(target.id, req.alertName, escalated));
    }

    /** The notes on an incident just suggested. */
    method NoteSuggested(req: Request, id: string, warnings0: Trail<Warning>) returns (warnings: Trail<Warning>)
      modifies stats, svc
      ensures var a := svc.answers;
              && svc.writes == When(When(Then(old(svc.writes), NoteAlert(id)), req.hasSummary, NoteSummary(id)),
                                    req.hasDescription, NoteDescription(id))
              && warnings == When(When(When(warnings0, a.noteFails, NoteFailed),
                                       req.hasSummary && a.summaryFails, SummaryFailed),
                                  req.hasDescription && a.descriptionFails, DescriptionFailed)
              && (stats != null ==>
                    stats.Now() == old(stats.Now()).(failed := old(stats.failed) + One(a.noteFails)))
    {
      warnings := warnings0;
      svc.Put(NoteAlert(id));
      if svc.answers.noteFails {
        warnings := Then(warnings, NoteFailed);
        Fail();
      }
      if req.hasSummary {
        svc.Put(NoteSummary(id));
        if svc.answers.summaryFails {
          warnings := Then(warnings, SummaryFailed);
        }
      }
      if req.hasDescription {
        svc.Put(NoteDescription(id));
        if svc.answers.descriptionFails {
          warnings := Then(warnings, DescriptionFailed);
        }
      }
    }

    /** Opening a suggested incident: it is open and noted before it is counted. */
    method Suggest(req: Request, activeExists: bool, ghost e0: Effect,
                   decisions0: Trail<Decision>, warnings0: Trail<Warning>)
      returns (decisions: Trail<Decision>, warnings: Trail<Warning>, crashed: bool)
      requires e0.counter == NoCounter && svc.writes == e0.writes && decisions0 == e0.decisions
          && warnings0 == e0.warnings
      modifies stats, svc
      ensures var e := SuggestEffect(req, activeExists, svc.answers, e0);
              && Done(e, decisions, warnings, crashed)
              && (stats != null ==> stats.Now() == old(stats.Now()).Plus(e.(failed := e.failed - e0.failed)))
    {
      decisions, warnings, crashed := decisions0, warnings0, false;
      svc.Put(SuggestIncident(req.service, req.severity, req.title));
      if svc.answers.suggest.None? {
        warnings := Then(warnings, SuggestFailed);
        Fail();
        return;
      }
      warnings := NoteSuggested(req, svc.answers.suggest.value, warnings);
      if stats == null {
        crashed := true;
        return;
      }
      stats.IncSuggested();
      svc.Put(History(if activeExists then CreatedInstead else SuggestedNew));
      if svc.answers.historyFails {
        warnings := Then(warnings, HistoryFailed);
      }
      decisions := Then(decisions, CreatedSuggested(req.service, activeExists));
    }

    /** Opening an incident in the rule's mode. */
    method Open(req: Request, dryRun: bool, ghost e0: Effect,
                decisions0: Trail<Decision>, warnings0: Trail<Warning>)
      returns (decisions: Trail<Decision>, warnings: Trail<Warning>, crashed: bool)
      requires e0.counter == NoCounter && svc.writes == e0.writes && decisions0 == e0.decisions
          && warnings0 == e0.warnings
      modifies stats, svc
      ensures var e := OpenEffect(req, svc.answers, dryRun, e0);
              && Done(e, decisions, warnings, crashed)
              && (stats != null ==> stats.Now() == old(stats.Now()).Plus(e.(failed := e.failed - e0.failed)))
    {
      decisions, warnings, crashed := decisions0, warnings0, false;
      if req.mode.AutoMode? {
        if dryRun {
          decisions := Then(decisions, WouldCreateAuto(req.service, req.severity, req.title));
          return;
        }
        svc.Put(StartIncident(req.service, req.severity, req.title));
        match svc.answers.start
        case ActiveExists =>
          decisions, warnings, crashed := Suggest(req, true, e0.(writes := svc.writes), decisions, warnings);
        case StartFails =>
          warnings := Then(warnings, StartFailed);
          Fail();
        case Started(id) =>
          svc.Put(NoteAlert(id));
          if svc.answers.noteFails {
            warnings := Then(warnings, NoteFailed);
            Fail();
          }
          if stats == null {
            crashed := true;
            return;
          }
          stats.IncCreated();
          svc.Put(History(CreatedNew));
          if svc.answers.historyFails {
            warnings := Then(warnings, HistoryFailed);
          }
          decisions := Then(decisions, CreatedAuto(req.service));
      } else {
        if dryRun {
          decisions := Then(decisions, WouldCreateSuggested(req.service, req.severity, req.title));
          return;
        }
        decisions, warnings, crashed := Suggest(req, false, e0, decisions, warnings);
      }
    }

    /** A resolved alert closes the active incident. */
    method ResolveActive(req: Request, dryRun: bool, ghost e0: Effect,
                         decisions0: Trail<Decision>, warnings0: Trail<Warning>)
      returns (decisions: Trail<Decision>, warnings: Trail<Warning>)
      requires e0.counter == NoCounter && svc.writes == e0.writes && decisions0 == e0.decisions
          && warnings0 == e0.warnings
      modifies svc
      ensures Done(ResolveEffect(req, svc.answers, dryRun, e0), decisions, warnings, false)
    {
      decisions, warnings := decisions0, warnings0;
      if svc.answers.active.None? {
        decisions := Then(decisions, NothingToResolve(req.service));
        return;
      }
      var id := svc.answers.active.value.id;
      if dryRun {
        decisions := Then(decisions, WouldResolve(id, req.alertName));
        return;
      }
      svc.Put(Resolve(id));
      if svc.answers.resolveFails {
        warnings := Then(warnings, ResolutionFailed);
      }
      decisions := Then(decisions, Resolved(id, req.alertName));
    }

    /** What the alert and the answers call for has been done; or, where counting it panicked, what comes before. */
    ghost predicate Met(req: Request, dryRun: bool, decisions: Trail<Decision>, warnings: Trail<Warning>, crashed: bool)
      reads this, svc
    {
      var a := svc.answers;
      && (crashed <==> stats == null && !dryRun && (Target(req, a).Some? || NewIncident(req, a).Some?))
      && (if crashed then WroteBeforeCount(req, a, svc.writes)
          else Wrote(req, a, dryRun, svc.writes) && Told(req, a, dryRun, decisions) && Warned(req, a, dryRun, warnings))
    }

    /** apply; its steps are those of Act. */
    method Apply(req: Request, dryRun: bool)
      returns (decisions: Trail<Decision>, warnings: Trail<Warning>, crashed: bool)
      requires svc.writes == Empty
      modifies stats, svc
      ensures var e := ApplyEffect(req, svc.answers, dryRun);
              && Done(e, decisions, warnings, crashed)
              && (stats != null ==> stats.Now() == old(stats.Now()).Plus(e))
      ensures Met(req, dryRun, decisions, warnings, crashed)
      ensures stats != null ==> CountedOnce(old(stats.Now()), stats.Now(), req, svc.answers, dryRun)
    {
      decisions, warnings, crashed := Act(req, dryRun);
      Meets(req, svc.answers, dryRun);
    }

    method Act(req: Request, dryRun: bool)
      returns (decisions: Trail<Decision>, warnings: Trail<Warning>, crashed: bool)
      requires svc.writes == Empty
      modifies stats, svc
      ensures var e := ApplyEffect(req, svc.answers, dryRun);
              && Done(e, decisions, warnings, crashed)
              && (stats != null ==> stats.Now() == old(stats.Now()).Plus(e))
    {
      decisions, warnings, crashed := Empty, Empty, false;
      if svc.answers.activeFails {
        warnings := Then(warnings, ActiveLookupFailed);
        Fail();
      }
      warnings := AllFromService(warnings, svc.answers.activeWarnings);
      warnings := AllFromService(warnings, svc.answers.activeWarnings);
      ghost var e := ActiveLookup(svc.answers, NOTHING);
      if req.resolved {
        decisions, warnings := ResolveActive(req, dryRun, e, decisions, warnings);
        return;
      }
      if svc.answers.active.Some? {
        decisions, warnings, crashed := Attach(req, svc.answers.active.value, true, dryRun, e, decisions, warnings);
        return;
      }
      decisions, warnings, crashed := ApplyInactive(req, dryRun, e, decisions, warnings);
    }

    /** The part of apply for a service without an active incident. */
    method ApplyInactive(req: Request, dryRun: bool, ghost e0: Effect,
                         decisions0: Trail<Decision>, warnings0: Trail<Warning>)
      returns (decisions: Trail<Decision>, warnings: Trail<Warning>, crashed: bool)
      requires e0.counter == NoCounter && svc.writes == e0.writes && decisions0 == e0.decisions
          && warnings0 == e0.warnings
      modifies stats, svc
      ensures var e := InactiveEffect(req, svc.answers, dryRun, e0);
              && Done(e, decisions, warnings, crashed)
              && (stats != null ==> stats.Now() == old(stats.Now()).Plus(e.(failed := e.failed - e0.failed)))
    {
      decisions, warnings, crashed := decisions0, warnings0, false;
      if svc.answers.suggestedFails {
        warnings := Then(warnings, SuggestedLookupFailed);
        Fail();
      }
      warnings := AllFromService(warnings, svc.answers.suggestedWarnings);
      ghost var e := SuggestedLookup(svc.answers, e0);
      if Fresh(svc.answers.suggested, svc.answers.now) {
        decisions, warnings, crashed := Attach(req, svc.answers.suggested.value, false, dryRun, e, decisions, warnings);
      } else {
        decisions, warnings, crashed := Open(req, dryRun, e, decisions, warnings);
      }
    }

    /** What processAlert does with an alert that got past deduplication. */
    method Pass(alert: Alert, dryRun: bool)
      returns (decisions: Trail<Decision>, warnings: Trail<Warning>, crashed: bool)
      requires svc.writes == Empty
      modifies stats, svc
      ensures Done(PassedEffect(rules, alert, svc.answers, dryRun), decisions, warnings, crashed)
      ensures stats != null ==> stats.Now() == old(stats.Now()).Plus(PassedEffect(rules, alert, svc.answers, dryRun))
    {
      decisions, warnings, crashed := Empty, Empty, false;
      var rule := MatchRule(rules, alert.labels);
      if rule.None? {
        if Get(alert.labels, "source") == "slo" {
          if dryRun {
            decisions := Then(decisions, WouldCreateDefault(Get(alert.labels, "service")));
            return;
          }
          decisions, warnings, crashed := Apply(FallbackRequest(alert), false);
          return;
        }
        warnings := Then(warnings, NoRule(Get(alert.labels, "alertname")));
        return;
      }
      decisions, warnings, crashed := Apply(RuleRequest(rule.value, alert), dryRun);
    }

    /** Nothing was done but to warn of this. */
    ghost predicate OnlyWarned(w: Warning, decisions: Trail<Decision>, warnings: Trail<Warning>, crashed: bool)
      reads this, svc
    {
      !crashed && svc.writes == Empty && decisions == Empty && warnings == Then(Empty, w)
    }

    /** The look-up of an alert with a name in the cache, if it has a key and there is a cache. */
    method LookUp(alert: Alert, now: int, digest: string -> string) returns (seen: bool)
      requires Get(alert.labels, "alertname") != ""
      modifies cache
      ensures var key := LookupKey(alert, digest);
              && seen == (key != "" && cache != null && Live(old(cache.entries), cache.ttl, key, now))
              && (cache != null ==>
                    cache.entries == if key != "" then After(old(cache.entries), cache.ttl, Call(key, now))
                                     else old(cache.entries))
    {
      var key := FingerprintKey(alert.fingerprint, alert.labels, digest);
      seen := false;
      if key != "" && cache != null {
        seen := cache.Seen(key, now);
      }
    }

    /** The steps of processAlert, with `now` read before the cache is consulted. */
    method Take(alert: Alert, dryRun: bool, now: int, digest: string -> string)
      returns (decisions: Trail<Decision>, warnings: Trail<Warning>, crashed: bool)
      requires svc.writes == Empty
      modifies stats, svc, cache
      ensures var name, key := Get(alert.labels, "alertname"), LookupKey(alert, digest);
              var looked := key != "" && cache != null;
              var seen := looked && Live(old(cache.entries), cache.ttl, key, now);
              && (cache != null ==>
                    cache.entries == if looked then After(old(cache.entries), cache.ttl, Call(key, now))
                                     else old(cache.entries))
              && (if name == "" then OnlyWarned(MissingName, decisions, warnings, crashed)
                  else if seen then OnlyWarned(DuplicateSkipped(name), decisions, warnings, crashed)
                  else Done(PassedEffect(rules, alert, svc.answers, dryRun), decisions, warnings, crashed))
              && (stats != null ==>
                    stats.Now()
                    == var before := old(stats.Now()).(received := old(stats.received) + 1);
                       if name == "" then before
                       else if seen then before.(deduped := before.deduped + 1)
                       else before.Plus(PassedEffect(rules, alert, svc.answers, dryRun)))
    {
      decisions, warnings, crashed := Empty, Empty, false;
      if stats != null {
        stats.IncReceived();
      }
      var alertName := Get(alert.labels, "alertname");
      if alertName == "" {
        warnings := Then(warnings, MissingName);
        return;
      }
      var seen := LookUp(alert, now, digest);
      if seen {
        if stats != null {
          stats.IncDeduped();
        }
        warnings := Then(warnings, DuplicateSkipped(alertName));
        return;
      }
      decisions, warnings, crashed := Pass(alert, dryRun);
    }

    /** Everything in `e` has been written and said, unless there are no counters and that panicked. */
    ghost predicate DoneOrCrashed(e: Effect, decisions: Trail<Decision>, warnings: Trail<Warning>, crashed: bool)
      reads this, svc
    {
      && (crashed ==> stats == null)
      && (!crashed ==> svc.writes == e.writes && decisions == e.decisions && warnings == e.warnings)
    }

    /** processAlert: what becomes of the alert, and what is counted. */
    method ProcessAlert(alert: Alert, dryRun: bool, now: int, digest: string -> string)
      returns (decisions: Trail<Decision>, warnings: Trail<Warning>, crashed: bool)
      requires svc.writes == Empty
      modifies stats, svc, cache
      ensures var key := LookupKey(alert, digest);
              var looked := key != "" && cache != null;
              var seen := looked && Live(old(cache.entries), cache.ttl, key, now);
              var e := AlertEffect(rules, alert, seen, svc.answers, dryRun);
              && (cache != null ==>
                    cache.entries == if looked then After(old(cache.entries), cache.ttl, Call(key, now))
                                     else old(cache.entries))
              && (if seen then !crashed && svc.writes == Empty && decisions == Empty && warnings == e.warnings
                  else Done(e, decisions, warnings, crashed))
              && (stats != null ==> stats.Now() == old(stats.Now()).(received := old(stats.received) + 1).Plus(e))
      ensures var key := LookupKey(alert, digest);
              var seen := key != "" && cache != null && key in old(cache.entries)
                          && now - old(cache.entries)[key] <= cache.ttl;
              exists e: Effect :: Handled(rules, alert, seen, svc.answers, dryRun, e)
                && DoneOrCrashed(e, decisions, warnings, crashed)
                && (stats != null ==> AddedUp(old(stats.Now()), stats.Now(), e))
      ensures stats != null ==> AtMostOneMore(old(stats.Now()), stats.Now())
    {
      ghost var before := if stats != null then stats.Now() else Counts(0, 0, 0, 0, 0);
      ghost var key := LookupKey(alert, digest);
      ghost var seen := key != "" && cache != null && Live(cache.entries, cache.ttl, key, now);
      decisions, warnings, crashed := Take(alert, dryRun, now, digest);
      AlertHandled(rules, alert, seen, svc.answers, dryRun);
      ghost var e := AlertEffect(rules, alert, seen, svc.answers, dryRun);
      PlusAddsUp(before, e);
      assert DoneOrCrashed(e, decisions, warnings, crashed);
    }
  }
}
