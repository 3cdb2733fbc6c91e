/** What one alert does: which incident it attaches to or opens, the writes it
    makes for that, and the counter it adds to. The incident service is outside
    the model: its answers are arbitrary. */
module AlertEffects {
  import opened Collections
  import opened Text

  /** What was done or said, in order. */
  datatype Trail<T> = Empty | Then(before: Trail<T>, last: T)

  /** A trail read from its beginning. */
  ghost function Items<T>(t: Trail<T>): seq<T> {
    if t.Empty? then [] else Items(t.before) + [t.last]
  }

  function When<T>(t: Trail<T>, due: bool, x: T): Trail<T> {
    if due then Then(t, x) else t
  }

  datatype Mode = SuggestMode | AutoMode

  datatype IncidentRef = IncidentRef(id: string, severity: string, createdAt: int)

  datatype Start = Started(id: string) | ActiveExists | StartFails

  /** What the incident service and the history log answer while one alert is applied. */
  datatype Answers = Answers(
    active: Option<IncidentRef>, activeWarnings: seq<string>, activeFails: bool,
    suggested: Option<IncidentRef>, suggestedWarnings: seq<string>, suggestedFails: bool,
    start: Start, suggest: Option<string>,
    resolveFails: bool, severityFails: bool, noteFails: bool,
    summaryFails: bool, descriptionFails: bool, historyFails: bool,
    now: int)

  /** The action a history line names. */
  datatype Action = DedupedActive | NotedSuggested | CreatedNew | CreatedInstead | SuggestedNew

  datatype Write =
    | Resolve(id: string)
    | UpdateSeverity(id: string, severity: string)
    | NoteAlert(id: string)
    | NoteSummary(id: string)
    | NoteDescription(id: string)
    | StartIncident(service: string, severity: string, title: string)
    | SuggestIncident(service: string, severity: string, title: string)
    | History(action: Action)

  datatype Decision =
    | NothingToResolve(service: string)
    | WouldResolve(id: string, alertName: string)
    | Resolved(id: string, alertName: string)
    | WouldEscalate(id: string, severity: string)
    | WouldNote(id: string, alertName: string)
    | AttachedToActive(id: string, alertName: string, escalated: bool)
    | AttachedToSuggested(id: string, alertName: string, escalated: bool)
    | WouldCreateDefault(service: string)
    | WouldCreateAuto(service: string, severity: string, title: string)
    | WouldCreateSuggested(service: string, severity: string, title: string)
    | CreatedAuto(service: string)
    | CreatedSuggested(service: string, activeExists: bool)

  datatype Warning =
    | FromService(text: string)
    | ActiveLookupFailed | SuggestedLookupFailed
    | ResolutionFailed | SeverityFailed | NoteFailed | SummaryFailed | DescriptionFailed
    | HistoryFailed | StartFailed | SuggestFailed
    | MissingName
    | DuplicateSkipped(alertName: string)
    | NoRule(alertName: string)

  /** What processAlert hands to apply. */
  datatype Request = Request(
    service: string, severity: string, mode: Mode, title: string, alertName: string,
    resolved: bool, hasSummary: bool, hasDescription: bool)

  /** The counter an alert adds to besides the one for having been received. */
  datatype Counter = NoCounter | Deduped | Created | Suggested

  /** Where an alert has got: the counter it added to, the failures it counted, and what it wrote and said. */
  datatype Effect = Effect(
    counter: Counter, failed: nat, writes: Trail<Write>, decisions: Trail<Decision>, warnings: Trail<Warning>)

  const NOTHING := Effect(NoCounter, 0, Empty, Empty, Empty)

  function Rank(severity: string): nat {
    if severity == "P1" then 4 else if severity == "P2" then 3 else if severity == "P3" then 2
    else if severity == "P4" then 1 else 0
  }

  function AllFromService(t: Trail<Warning>, texts: seq<string>): Trail<Warning> {
    if texts == [] then t
    else Then(AllFromService(t, texts[..|texts| - 1]), FromService(texts[|texts| - 1]))
  }

  /** A suggested incident older than four hours is ignored. */
  const STALE_AFTER := 4 * 3_600 * 1_000_000_000

  predicate Fresh(suggested: Option<IncidentRef>, now: int) {
    suggested.Some? && now - suggested.value.createdAt <= STALE_AFTER
  }

  // Each function below continues the effect `e` of what was done before it.

  function ResolveEffect(req: Request, a: Answers, dryRun: bool, e: Effect): Effect {
    if a.active.None? then e.(decisions := Then(e.decisions, NothingToResolve(req.service)))
    else
      var id := a.active.value.id;
      if dryRun then e.(decisions := Then(e.decisions, WouldResolve(id, req.alertName)))
      else e.(writes := Then(e.writes, Resolve(id)),
              decisions := Then(e.decisions, Resolved(id, req.alertName)),
              warnings := When(e.warnings, a.resolveFails, ResolutionFailed))
  }

  /** The alert joins an incident that is already there. */
  function AttachEffect(req: Request, target: IncidentRef, isActive: bool, a: Answers, dryRun: bool, e: Effect): Effect
  {
    var id, higher := target.id, Rank(req.severity) > Rank(target.severity);
    if dryRun then
      e.(decisions := Then(When(e.decisions, higher, WouldEscalate(id, req.severity)), WouldNote(id, req.alertName)))
    else
      var escalated := higher && !a.severityFails;
      Effect(
        Deduped,
        e.failed + One(a.noteFails),
        Then(Then(When(e.writes, higher, UpdateSeverity(id, req.severity)), NoteAlert(id)),
             History(if isActive then DedupedActive else NotedSuggested)),
        Then(e.decisions, if isActive then AttachedToActive(id, req.alertName, escalated)
                          else AttachedToSuggested(id, req.alertName, escalated)),
        When(When(When(e.warnings, higher && a.severityFails, SeverityFailed), a.noteFails, NoteFailed),
             a.historyFails, HistoryFailed))
  }

  /** A suggested incident is opened. */
  function SuggestEffect(req: Request, activeExists: bool, a: Answers, e: Effect): Effect {
    var writes := Then(e.writes, SuggestIncident(req.service, req.severity, req.title));
    match a.suggest
    case None => e.(failed := e.failed + 1, writes := writes, warnings := Then(e.warnings, SuggestFailed))
    case Some(id) =>
      Effect(
        Suggested,
        e.failed + One(a.noteFails),
        Then(When(When(Then(writes, NoteAlert(id)), req.hasSummary, NoteSummary(id)), req.hasDescription,
            NoteDescription(id)),
             History(if activeExists then CreatedInstead else SuggestedNew)),
        Then(e.decisions, CreatedSuggested(req.service, activeExists)),
        When(When(When(When(e.warnings, a.noteFails, NoteFailed), req.hasSummary && a.summaryFails, SummaryFailed),
                  req.hasDescription && a.descriptionFails, DescriptionFailed),
             a.historyFails, HistoryFailed))
  }

  /** No incident is there to attach to: one is opened, in the rule's mode. */
  function OpenEffect(req: Request, a: Answers, dryRun: bool, e: Effect): Effect {
    if dryRun then
      e.(decisions := Then(e.decisions,
           if req.mode.AutoMode? then WouldCreateAuto(req.service, req.severity, req.title)
           else WouldCreateSuggested(req.service, req.severity, req.title)))
    else if req.mode.SuggestMode? then SuggestEffect(req, false, a, e)
    else
      var started := e.(writes := Then(e.writes, StartIncident(req.service, req.severity, req.title)));
      match a.start
      case Started(id) =>
        Effect(
          Created,
          e.failed + One(a.noteFails),
          Then(Then(started.writes, NoteAlert(id)), History(CreatedNew)),
          Then(e.decisions, CreatedAuto(req.service)),
          When(When(e.warnings, a.noteFails, NoteFailed), a.historyFails, HistoryFailed))
      case ActiveExists => SuggestEffect(req, true, a, started)
      case StartFails => started.(failed := e.failed + 1, warnings := Then(e.warnings, StartFailed))
  }

  /** The look-up of active incidents; its own warnings are reported twice, as the code does. */
  function ActiveLookup(a: Answers, e: Effect): Effect {
    e.(failed := e.failed + One(a.activeFails),
       warnings := AllFromService(
         AllFromService(When(e.warnings, a.activeFails, ActiveLookupFailed), a.activeWarnings), a.activeWarnings))
  }

  function SuggestedLookup(a: Answers, e: Effect): Effect {
    e.(failed := e.failed + One(a.suggestedFails),
       warnings := AllFromService(When(e.warnings, a.suggestedFails, SuggestedLookupFailed), a.suggestedWarnings))
  }

  /** The service has no active incident. */
  function InactiveEffect(req: Request, a: Answers, dryRun: bool, e: Effect): Effect {
    if Fresh(a.suggested, a.now) then AttachEffect(req, a.suggested.value, false, a, dryRun, SuggestedLookup(a, e))
    else OpenEffect(req, a, dryRun, SuggestedLookup(a, e))
  }

  function ApplyEffect(req: Request, a: Answers, dryRun: bool): Effect {
    var e := ActiveLookup(a, NOTHING);
    if req.resolved then ResolveEffect(req, a, dryRun, e)
    else if a.active.Some? then AttachEffect(req, a.active.value, true, a, dryRun, e)
    else InactiveEffect(req, a, dryRun, e)
  }

  // ----- what every effect keeps -----

  /** A dry run touches no incident, no history and no counter but the one for failures. */
  lemma DryRunWritesNothing(req: Request, a: Answers)
    ensures ApplyEffect(req, a, true).writes == Empty && ApplyEffect(req, a, true).counter == NoCounter
    ensures ApplyEffect(req, a, true).decisions != Empty
  {
  }

  /** The incident an effect is about: the one attached to or resolved, or the one it opened. */
  function Subject(req: Request, a: Answers): Option<string> {
    if a.active.Some? then Some(a.active.value.id)
    else if req.resolved then None
    else if Fresh(a.suggested, a.now) then Some(a.suggested.value.id)
    else if req.mode.AutoMode? && a.start.Started? then Some(a.start.id)
    else if req.mode.AutoMode? && a.start.StartFails? then None
    else a.suggest
  }

  predicate About(w: Write, id: Option<string>) {
    w.StartIncident? || w.SuggestIncident? || w.History? || (id.Some? && w.id == id.value)
  }

  predicate AllAbout(writes: Trail<Write>, id: Option<string>) {
    writes.Empty? || (About(writes.last, id) && AllAbout(writes.before, id))
  }

  lemma SuggestAbout(req: Request, activeExists: bool, a: Answers, e: Effect)
    requires AllAbout(e.writes, a.suggest)
    ensures AllAbout(SuggestEffect(req, activeExists, a, e).writes, a.suggest)
  {
    if a.suggest.Some? {
      var id := a.suggest.value;
      var noted := Then(Then(e.writes, SuggestIncident(req.service, req.severity, req.title)), NoteAlert(id));
      assert AllAbout(noted, a.suggest);
      var told := When(When(noted, req.hasSummary, NoteSummary(id)), req.hasDescription, NoteDescription(id));
      assert AllAbout(told, a.suggest);
    }
  }

  /** Everything an alert writes about an incident, it writes about one and the same incident. */
  lemma OneSubject(req: Request, a: Answers, dryRun: bool)
    ensures AllAbout(ApplyEffect(req, a, dryRun).writes, Subject(req, a))
  {
    var e := SuggestedLookup(a, ActiveLookup(a, NOTHING));
    var start := StartIncident(req.service, req.severity, req.title);
    assert AllAbout(Then(e.writes, start), a.suggest) && AllAbout(Then(e.writes, start), Subject(req, a));
    SuggestAbout(req, false, a, e);
    SuggestAbout(req, true, a, e.(writes := Then(e.writes, start)));
    if a.active.Some? {
      assert AllAbout(When(e.writes, true, UpdateSeverity(a.active.value.id, req.severity)), Some(a.active.value.id));
    } else if a.suggested.Some? {
      assert AllAbout(When(e.writes, true, UpdateSeverity(a.suggested.value.id, req.severity)),
          Some(a.suggested.value.id));
    }
  }

  predicate Opens(w: Write, a: Answers) {
    (w.StartIncident? && a.start.Started?) || (w.SuggestIncident? && a.suggest.Some?)
  }

  /** How many of the writes opened an incident. */
  function Opened(writes: Trail<Write>, a: Answers): nat {
    if writes.Empty? then 0 else Opened(writes.before, a) + One(Opens(writes.last, a))
  }

  lemma SuggestOpens(req: Request, activeExists: bool, a: Answers, e: Effect)
    ensures Opened(SuggestEffect(req, activeExists, a, e).writes, a) == Opened(e.writes, a) + One(a.suggest.Some?)
  {
    if a.suggest.Some? {
      var id := a.suggest.value;
      var noted := Then(Then(e.writes, SuggestIncident(req.service, req.severity, req.title)), NoteAlert(id));
      assert Opened(noted, a) == Opened(e.writes, a) + 1;
      var told := When(When(noted, req.hasSummary, NoteSummary(id)), req.hasDescription, NoteDescription(id));
      assert Opened(told, a) == Opened(noted, a);
    }
  }

  /** Opened as often as counted. */
  ghost predicate OpenedAsCounted(e: Effect, a: Answers) {
    Opened(e.writes, a) == One(e.counter in {Created, Suggested})
  }

  lemma OpenedWhenCounted(req: Request, a: Answers, dryRun: bool)
    ensures OpenedAsCounted(ApplyEffect(req, a, dryRun), a)
  {
    var e := ActiveLookup(a, NOTHING);
    if req.resolved {
    } else if a.active.Some? {
      AttachOpensNone(req, a.active.value, true, a, dryRun, e);
    } else if Fresh(a.suggested, a.now) {
      AttachOpensNone(req, a.suggested.value, false, a, dryRun, SuggestedLookup(a, e));
    } else {
      OpenOpens(req, a, dryRun, SuggestedLookup(a, e));
    }
  }

  lemma OpenOpens(req: Request, a: Answers, dryRun: bool, e: Effect)
    requires e.writes == Empty && e.counter == NoCounter
    ensures OpenedAsCounted(OpenEffect(req, a, dryRun, e), a)
  {
    var started := e.(writes := Then(e.writes, StartIncident(req.service, req.severity, req.title)));
    assert Opened(started.writes, a) == One(a.start.Started?);
    SuggestOpens(req, false, a, e);
    SuggestOpens(req, true, a, started);
  }

  lemma AttachOpensNone(req: Request, target: IncidentRef, isActive: bool, a: Answers, dryRun: bool, e: Effect)
    ensures Opened(AttachEffect(req, target, isActive, a, dryRun, e).writes, a) == Opened(e.writes, a)
  {
    var escalated := Then(e.writes, UpdateSeverity(target.id, req.severity));
    assert Opened(escalated, a) == Opened(e.writes, a);
  }

  /** An alert opens at most one incident, and exactly when it is counted as created or
      suggested; it is counted as deduplicated exactly when it noted itself on an incident
      that was there. A live alert counted nowhere either was a resolution or failed to open. */
  lemma CountersTellWhatHappened(req: Request, a: Answers, dryRun: bool)
    ensures var e := ApplyEffect(req, a, dryRun);
            && Opened(e.writes, a) == One(e.counter in {Created, Suggested})
            && (e.counter == Deduped <==> !dryRun && !req.resolved && (a.active.Some? || Fresh(a.suggested, a.now)))
            && (e.counter == NoCounter ==> dryRun || req.resolved || e.decisions == Empty)
            && (e.decisions == Empty ==> e.failed > 0 && e.counter == NoCounter)
  {
    OpenedWhenCounted(req, a, dryRun);
  }

  // ----- what a panic leaves -----

  function Before<T>(t: Trail<T>): Trail<T> {
    if t.Empty? then t else t.before
  }

  /** The writes made when an alert comes to be counted: an alert that attaches itself is
      counted before its note and its history line, one that opens an incident before its
      history line. */
  function MadeBeforeCount(e: Effect): Trail<Write> {
    match e.counter
    case NoCounter => e.writes
    case Deduped => Before(Before(e.writes))
    case Created => Before(e.writes)
    case Suggested => Before(e.writes)
  }

  predicate Made<T(==)>(t: Trail<T>, x: T) {
    t.Then? && (t.last == x || Made(t.before, x))
  }

  predicate Recorded(t: Trail<Write>) {
    t.Then? && (t.last.History? || Recorded(t.before))
  }

  lemma SuggestMade(req: Request, activeExists: bool, a: Answers, e: Effect)
    requires a.suggest.Some? && !Recorded(e.writes)
    ensures var writes := SuggestEffect(req, activeExists, a, e).writes;
            && writes.Then? && writes.last.History?
            && Made(writes.before, NoteAlert(a.suggest.value)) && !Recorded(writes.before)
  {
    var id := a.suggest.value;
    var noted := Then(Then(e.writes, SuggestIncident(req.service, req.severity, req.title)), NoteAlert(id));
    assert Made(noted, NoteAlert(id)) && !Recorded(noted);
    var told := When(noted, req.hasSummary, NoteSummary(id));
    assert Made(told, NoteAlert(id)) && !Recorded(told);
    assert Made(When(told, req.hasDescription, NoteDescription(id)), NoteAlert(id));
    assert !Recorded(When(told, req.hasDescription, NoteDescription(id)));
  }

  /** Without counters an incident is opened and noted and nothing is in the history, or an
      incident that was there is at most escalated, and neither noted nor in the history. */
  lemma PanicLeaves(req: Request, a: Answers)
    requires ApplyEffect(req, a, false).counter != NoCounter
    ensures var made, subject := MadeBeforeCount(ApplyEffect(req, a, false)), Subject(req, a);
            && subject.Some? && !Recorded(made)
            && (if ApplyEffect(req, a, false).counter == Deduped then
                  made.Empty? || made == Then(Empty, UpdateSeverity(subject.value, req.severity))
                else Opened(made, a) == 1 && Made(made, NoteAlert(subject.value)))
  {
    CountersTellWhatHappened(req, a, false);
    var e := SuggestedLookup(a, ActiveLookup(a, NOTHING));
    var started := e.(writes := Then(e.writes, StartIncident(req.service, req.severity, req.title)));
    if a.suggest.Some? {
      SuggestMade(req, false, a, e);
      SuggestMade(req, true, a, started);
    }
    if a.start.Started? {
      var noted := Then(started.writes, NoteAlert(a.start.id));
      assert !Recorded(started.writes);
      assert Made(noted, NoteAlert(a.start.id)) && !Recorded(noted);
    }
    if a.active.Some? {
      assert !Recorded(Then(Empty, UpdateSeverity(a.active.value.id, req.severity)));
    }
    if a.suggested.Some? {
      assert !Recorded(Then(Empty, UpdateSeverity(a.suggested.value.id, req.severity)));
    }
    var all := ApplyEffect(req, a, false).writes;
    assert all.last.History? && Opened(all, a) == Opened(all.before, a);
  }

  // ----- what is said twice -----

  function Count<T(==)>(t: Trail<T>, x: T): nat {
    if t.Empty? then 0 else Count(t.before, x) + One(t.last == x)
  }

  function Occurrences(texts: seq<string>, text: string): nat {
    if texts == [] then 0 else Occurrences(texts[..|texts| - 1], text) + One(texts[|texts| - 1] == text)
  }

  lemma {:induction false} AllFromServiceCounts(t: Trail<Warning>, texts: seq<string>, text: string)
    ensures Count(AllFromService(t, texts), FromService(text)) == Count(t, FromService(text)) + Occurrences(texts, text)
  {
    if texts != [] {
      AllFromServiceCounts(t, texts[..|texts| - 1], text);
    }
  }

  // The later warnings are none of the service's.

  lemma AttachWarnings(req: Request, target: IncidentRef, isActive: bool, a: Answers, dryRun: bool, e: Effect,
      text: string)
    ensures Count(ResolveEffect(req, a, dryRun, e).warnings, FromService(text)) == Count(e.warnings, FromService(text))
    ensures Count(AttachEffect(req, target, isActive, a, dryRun, e).warnings, FromService(text))
        == Count(e.warnings, FromService(text))
  {
    var w := FromService(text);
    var severity := When(e.warnings, Rank(req.severity) > Rank(target.severity) && a.severityFails, SeverityFailed);
    assert Count(severity, w) == Count(e.warnings, w);
    assert Count(When(severity, a.noteFails, NoteFailed), w) == Count(e.warnings, w);
  }

  lemma SuggestWarnings(req: Request, activeExists: bool, a: Answers, e: Effect, text: string)
    ensures Count(SuggestEffect(req, activeExists, a, e).warnings, FromService(text))
        == Count(e.warnings, FromService(text))
  {
    var w := FromService(text);
    var note := When(e.warnings, a.noteFails, NoteFailed);
    var summary := When(note, req.hasSummary && a.summaryFails, SummaryFailed);
    assert Count(note, w) == Count(e.warnings, w);
    assert Count(summary, w) == Count(e.warnings, w);
    assert Count(When(summary, req.hasDescription && a.descriptionFails, DescriptionFailed), w) == Count(e.warnings, w);
  }

  lemma OpenWarnings(req: Request, a: Answers, dryRun: bool, e: Effect, text: string)
    ensures Count(OpenEffect(req, a, dryRun, e).warnings, FromService(text)) == Count(e.warnings, FromService(text))
  {
    SuggestWarnings(req, false, a, e, text);
    SuggestWarnings(req, true, a, e.(writes := Then(e.writes, StartIncident(req.service, req.severity, req.title))),
        text);
    assert Count(When(e.warnings, a.noteFails, NoteFailed), FromService(text)) == Count(e.warnings, FromService(text));
  }

  /** Every warning of the look-up of active incidents is reported twice, every one of the
      look-up of suggested incidents once. */
  lemma ServiceWarningsReported(req: Request, a: Answers, dryRun: bool, text: string)
    ensures Count(ApplyEffect(req, a, dryRun).warnings, FromService(text))
         == 2 * Occurrences(a.activeWarnings, text)
            + if req.resolved || a.active.Some? then 0 else Occurrences(a.suggestedWarnings, text)
  {
    var first := When(Empty, a.activeFails, ActiveLookupFailed);
    AllFromServiceCounts(first, a.activeWarnings, text);
    AllFromServiceCounts(AllFromService(first, a.activeWarnings), a.activeWarnings, text);
    var e := ActiveLookup(a, NOTHING);
    assert Count(e.warnings, FromService(text)) == 2 * Occurrences(a.activeWarnings, text);
    AllFromServiceCounts(When(e.warnings, a.suggestedFails, SuggestedLookupFailed), a.suggestedWarnings, text);
    var f := SuggestedLookup(a, e);
    var target := if a.active.Some? then a.active.value else if a.suggested.Some? then a.suggested.value
                  else IncidentRef("", "", 0);
    AttachWarnings(req, target, true, a, dryRun, e, text);
    AttachWarnings(req, target, false, a, dryRun, f, text);
    OpenWarnings(req, a, dryRun, f, text);
  }
}
