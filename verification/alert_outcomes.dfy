/** What one alert brings about, told from the alert and the answers alone: which writes are
    made and in what order, what is decided, what is warned of, and what is counted. */
module AlertOutcomes {
  import opened Collections
  import opened AlertEffects

  // ----- what the alert and the answers call for -----

  /** P1 over P2 over P3 over P4 over anything else. */
  predicate MoreSevere(a: string, b: string) {
    || (a == "P1" && b != "P1")
    || (a == "P2" && b != "P1" && b != "P2")
    || (a == "P3" && b != "P1" && b != "P2" && b != "P3")
    || (a == "P4" && b != "P1" && b != "P2" && b != "P3" && b != "P4")
  }

  /** The incident a live alert joins: the active one, else a suggested one no older than four hours. */
  function Target(req: Request, a: Answers): Option<IncidentRef> {
    if req.resolved then None
    else if a.active.Some? then a.active
    else if a.suggested.Some? && a.now - a.suggested.value.createdAt <= 14_400_000_000_000 then a.suggested
    else None
  }

  /** A live alert without an incident to join has one started. */
  predicate Starts(req: Request, a: Answers) {
    !req.resolved && Target(req, a) == None && req.mode == AutoMode
  }

  /** It has one suggested: in the mode that asks for it, or because another is active after all. */
  predicate Suggests(req: Request, a: Answers) {
    !req.resolved && Target(req, a) == None && (req.mode == SuggestMode || a.start == ActiveExists)
  }

  /** The incident an alert opens. */
  function NewIncident(req: Request, a: Answers): Option<string> {
    if Suggests(req, a) then a.suggest
    else if Starts(req, a) && a.start.Started? then Some(a.start.id)
    else None
  }

  /** The incident is raised to the severity of the alert that joins it. */
  predicate Escalates(req: Request, a: Answers) {
    Target(req, a).Some? && MoreSevere(req.severity, Target(req, a).value.severity)
  }

  // ----- the writes -----

  /** The write is called for. */
  predicate IsDue(req: Request, a: Answers, w: Write) {
    var target := Target(req, a);
    match w
    case Resolve(id) => req.resolved && a.active.Some? && a.active.value.id == id
    case UpdateSeverity(id, severity) => Escalates(req, a) && target.value.id == id && severity == req.severity
    case NoteAlert(id) => (target.Some? && target.value.id == id) || NewIncident(req, a) == Some(id)
    case NoteSummary(id) => Suggests(req, a) && a.suggest == Some(id) && req.hasSummary
    case NoteDescription(id) => Suggests(req, a) && a.suggest == Some(id) && req.hasDescription
    case StartIncident(service, severity, title) =>
      Starts(req, a) && service == req.service && severity == req.severity && title == req.title
    case SuggestIncident(service, severity, title) =>
      Suggests(req, a) && service == req.service && severity == req.severity && title == req.title
    case History(action) =>
      match action
      case DedupedActive => !req.resolved && a.active.Some?
      case NotedSuggested => !req.resolved && a.active.None? && target.Some?
      case CreatedNew => NewIncident(req, a).Some? && !Suggests(req, a)
      case CreatedInstead => NewIncident(req, a).Some? && Suggests(req, a) && req.mode == AutoMode
      case SuggestedNew => NewIncident(req, a).Some? && req.mode == SuggestMode
  }

  function Turn(w: Write): nat {
    match w
    case Resolve(_) => 0
    case StartIncident(_, _, _) => 0
    case UpdateSeverity(_, _) => 0
    case SuggestIncident(_, _, _) => 1
    case NoteAlert(_) => 2
    case NoteSummary(_) => 3
    case NoteDescription(_) => 4
    case History(_) => 5
  }

  /** Nothing is written twice, and incidents are opened or raised before they are noted, and
      noted before the history is written. */
  predicate InTurn(writes: Trail<Write>) {
    writes.Empty? || (InTurn(writes.before) && (writes.before.Empty? || Turn(writes.before.last) < Turn(writes.last)))
  }

  /** Just the writes called for are made, once each and in their turn; a dry run makes none. */
  ghost predicate Wrote(req: Request, a: Answers, dryRun: bool, writes: Trail<Write>) {
    InTurn(writes) && forall w :: Made(writes, w) <==> !dryRun && IsDue(req, a, w)
  }

  // ----- the decisions -----

  predicate IsDecided(req: Request, a: Answers, dryRun: bool, d: Decision) {
    var target, joins := Target(req, a), Target(req, a).Some?;
    match d
    case NothingToResolve(service) => req.resolved && a.active.None? && service == req.service
    case WouldResolve(id, name) =>
      dryRun && req.resolved && a.active.Some? && id == a.active.value.id && name == req.alertName
    case Resolved(id, name) =>
      !dryRun && req.resolved && a.active.Some? && id == a.active.value.id && name == req.alertName
    case WouldEscalate(id, severity) => dryRun && Escalates(req, a) && id == target.value.id && severity == req.severity
    case WouldNote(id, name) => dryRun && joins && id == target.value.id && name == req.alertName
    case AttachedToActive(id, name, escalated) =>
      && !dryRun && joins && a.active.Some? && id == target.value.id && name == req.alertName
      && escalated == (Escalates(req, a) && !a.severityFails)
    case AttachedToSuggested(id, name, escalated) =>
      && !dryRun && joins && a.active.None? && id == target.value.id && name == req.alertName
      && escalated == (Escalates(req, a) && !a.severityFails)
    case WouldCreateDefault(_) => false
    case WouldCreateAuto(service, severity, title) =>
      dryRun && Starts(req, a) && service == req.service && severity == req.severity && title == req.title
    case WouldCreateSuggested(service, severity, title) =>
      && dryRun && !req.resolved && !joins && req.mode == SuggestMode
      && service == req.service && severity == req.severity && title == req.title
    case CreatedAuto(service) => !dryRun && NewIncident(req, a).Some? && !Suggests(req, a) && service == req.service
    case CreatedSuggested(service, activeExists) =>
      && !dryRun && NewIncident(req, a).Some? && Suggests(req, a) && service == req.service
      && activeExists == (req.mode == AutoMode)
  }

  /** An escalation is told before the note; otherwise there is one decision at most. */
  predicate ToldInTurn(decisions: Trail<Decision>) {
    || decisions.Empty?
    || decisions.before.Empty?
    || (decisions.before.before.Empty? && decisions.before.last.WouldEscalate? && decisions.last.WouldNote?)
  }

  ghost predicate Told(req: Request, a: Answers, dryRun: bool, decisions: Trail<Decision>) {
    ToldInTurn(decisions) && forall d :: Made(decisions, d) <==> IsDecided(req, a, dryRun, d)
  }

  // ----- the warnings and the counters -----

  /** The program's own warnings; the service's are passed on beside them. */
  predicate IsWarned(req: Request, a: Answers, dryRun: bool, w: Warning) {
    var noted := !dryRun && (Target(req, a).Some? || NewIncident(req, a).Some?);
    match w
    case ActiveLookupFailed => a.activeFails
    case SuggestedLookupFailed => !req.resolved && a.active.None? && a.suggestedFails
    case ResolutionFailed => !dryRun && req.resolved && a.active.Some? && a.resolveFails
    case SeverityFailed => !dryRun && Escalates(req, a) && a.severityFails
    case NoteFailed => noted && a.noteFails
    case SummaryFailed => noted && Suggests(req, a) && req.hasSummary && a.summaryFails
    case DescriptionFailed => noted && Suggests(req, a) && req.hasDescription && a.descriptionFails
    case HistoryFailed => noted && a.historyFails
    case StartFailed => !dryRun && Starts(req, a) && a.start == StartFails
    case SuggestFailed => !dryRun && Suggests(req, a) && a.suggest == None
    case MissingName => false
    case DuplicateSkipped(_) => false
    case NoRule(_) => false
    case FromService(_) => false
  }

  /** Each of the program's warnings is given once or not at all; the service's are passed on,
      twice those of the look-up of active incidents. */
  ghost predicate Warned(req: Request, a: Answers, dryRun: bool, warnings: Trail<Warning>) {
    && (forall w: Warning | !w.FromService? :: Count(warnings, w) == One(IsWarned(req, a, dryRun, w)))
    && forall text :: Count(warnings, FromService(text))
         == 2 * Occurrences(a.activeWarnings, text)
            + if req.resolved || a.active.Some? then 0 else Occurrences(a.suggestedWarnings, text)
  }

  /** The counter of the three an alert is counted in. */
  predicate IsCounted(req: Request, a: Answers, dryRun: bool, counter: Counter) {
    match counter
    case Deduped => !dryRun && Target(req, a).Some?
    case Created => !dryRun && NewIncident(req, a).Some? && !Suggests(req, a)
    case Suggested => !dryRun && NewIncident(req, a).Some? && Suggests(req, a)
    case NoCounter => dryRun || (Target(req, a).None? && NewIncident(req, a).None?)
  }

  /** Failures are counted for look-ups, notes, starts and suggestions, and for nothing else. */
  function FailuresCounted(req: Request, a: Answers, dryRun: bool): nat {
    One(IsWarned(req, a, dryRun, ActiveLookupFailed)) + One(IsWarned(req, a, dryRun, SuggestedLookupFailed))
    + One(IsWarned(req, a, dryRun, NoteFailed)) + One(IsWarned(req, a, dryRun, StartFailed))
    + One(IsWarned(req, a, dryRun, SuggestFailed))
  }

  ghost predicate Outcome(req: Request, a: Answers, dryRun: bool, e: Effect) {
    && Wrote(req, a, dryRun, e.writes) && Told(req, a, dryRun, e.decisions) && Warned(req, a, dryRun, e.warnings)
    && IsCounted(req, a, dryRun, e.counter) && e.failed == FailuresCounted(req, a, dryRun)
  }

  // ----- apply does what is called for -----

  lemma RankMeans(a: string, b: string)
    ensures Rank(a) > Rank(b) <==> MoreSevere(a, b)
  {
  }

  lemma MadeThen<T>(t: Trail<T>, x: T)
    ensures forall y :: Made(Then(t, x), y) <==> y == x || Made(t, y)
  {
  }

  lemma MadeWhen<T>(t: Trail<T>, due: bool, x: T)
    ensures forall y :: Made(When(t, due, x), y) <==> (due && y == x) || Made(t, y)
  {
    MadeThen(t, x);
  }

  lemma InTurnThen(writes: Trail<Write>, w: Write)
    requires InTurn(writes) && (writes.Empty? || Turn(writes.last) < Turn(w))
    ensures InTurn(Then(writes, w))
  {
  }

  lemma CountWhen(t: Trail<Warning>, due: bool, x: Warning)
    ensures forall y :: Count(When(t, due, x), y) == Count(t, y) + One(due && y == x)
  {
  }

  /** The writes of an alert that joins an incident. */
  lemma AttachWrites(req: Request, target: IncidentRef, isActive: bool, a: Answers, e: Effect)
    requires e.writes == Empty && Target(req, a) == Some(target) && isActive == a.active.Some?
    ensures Wrote(req, a, false, AttachEffect(req, target, isActive, a, false, e).writes)
  {
    RankMeans(req.severity, target.severity);
    var higher := MoreSevere(req.severity, target.severity);
    var raised := When(Empty, higher, UpdateSeverity(target.id, req.severity));
    var noted := Then(raised, NoteAlert(target.id));
    MadeWhen(Empty, higher, UpdateSeverity(target.id, req.severity));
    MadeThen(raised, NoteAlert(target.id));
    MadeThen(noted, History(if isActive then DedupedActive else NotedSuggested));
    if higher {
      InTurnThen(Empty, UpdateSeverity(target.id, req.severity));
    }
    InTurnThen(raised, NoteAlert(target.id));
  }

  /** The writes of an alert that has an incident suggested. */
  lemma SuggestWrites(req: Request, activeExists: bool, a: Answers, e: Effect)
    requires Suggests(req, a) && activeExists == (req.mode == AutoMode)
    requires e.writes
          == if activeExists then Then(Empty, StartIncident(req.service, req.severity, req.title)) else Empty
    ensures Wrote(req, a, false, SuggestEffect(req, activeExists, a, e).writes)
  {
    var asked := SuggestIncident(req.service, req.severity, req.title);
    var suggested := Then(e.writes, asked);
    if activeExists {
      MadeThen(Empty, StartIncident(req.service, req.severity, req.title));
      InTurnThen(Empty, StartIncident(req.service, req.severity, req.title));
    }
    MadeThen(e.writes, asked);
    InTurnThen(e.writes, asked);
    if a.suggest.Some? {
      var id := a.suggest.value;
      var noted := Then(suggested, NoteAlert(id));
      var summed := When(noted, req.hasSummary, NoteSummary(id));
      var described := When(summed, req.hasDescription, NoteDescription(id));
      MadeThen(suggested, NoteAlert(id));
      MadeWhen(noted, req.hasSummary, NoteSummary(id));
      MadeWhen(summed, req.hasDescription, NoteDescription(id));
      MadeThen(described, History(if activeExists then CreatedInstead else SuggestedNew));
      InTurnThen(suggested, NoteAlert(id));
      if req.hasSummary {
        InTurnThen(noted, NoteSummary(id));
      }
      if req.hasDescription {
        InTurnThen(summed, NoteDescription(id));
      }
    }
  }

  /** The writes of an alert without an incident to join. */
  lemma OpenWrites(req: Request, a: Answers, e: Effect)
    requires e.writes == Empty && !req.resolved && Target(req, a) == None
    ensures Wrote(req, a, false, OpenEffect(req, a, false, e).writes)
  {
    var start := StartIncident(req.service, req.severity, req.title);
    if Suggests(req, a) {
      SuggestWrites(req, req.mode == AutoMode, a,
                    e.(writes := if req.mode == AutoMode then Then(Empty, start) else Empty));
    } else {
      MadeThen(Empty, start);
      InTurnThen(Empty, start);
      if a.start.Started? {
        var noted := Then(Then(Empty, start), NoteAlert(a.start.id));
        MadeThen(Then(Empty, start), NoteAlert(a.start.id));
        MadeThen(noted, History(CreatedNew));
        InTurnThen(Then(Empty, start), NoteAlert(a.start.id));
      }
    }
  }

  lemma WritesExactly(req: Request, a: Answers, dryRun: bool)
    ensures Wrote(req, a, dryRun, ApplyEffect(req, a, dryRun).writes)
  {
    var looked := ActiveLookup(a, NOTHING);
    if dryRun {
      DryRunWritesNothing(req, a);
    } else if req.resolved {
      if a.active.Some? {
        MadeThen(Empty, Resolve(a.active.value.id));
      }
    } else if a.active.Some? {
      AttachWrites(req, a.active.value, true, a, looked);
    } else if Target(req, a).Some? {
      AttachWrites(req, a.suggested.value, false, a, SuggestedLookup(a, looked));
    } else {
      OpenWrites(req, a, SuggestedLookup(a, looked));
    }
  }

  lemma AttachDecisions(req: Request, target: IncidentRef, isActive: bool, a: Answers, dryRun: bool, e: Effect)
    requires e.decisions == Empty && Target(req, a) == Some(target) && isActive == a.active.Some?
    ensures Told(req, a, dryRun, AttachEffect(req, target, isActive, a, dryRun, e).decisions)
  {
    RankMeans(req.severity, target.severity);
    var decisions := AttachEffect(req, target, isActive, a, dryRun, e).decisions;
    if dryRun {
      MadeWhen(Empty, MoreSevere(req.severity, target.severity), WouldEscalate(target.id, req.severity));
    }
    MadeThen(decisions.before, decisions.last);
  }

  lemma DecisionsExactly(req: Request, a: Answers, dryRun: bool)
    ensures Told(req, a, dryRun, ApplyEffect(req, a, dryRun).decisions)
  {
    var looked := ActiveLookup(a, NOTHING);
    if !req.resolved && a.active.Some? {
      AttachDecisions(req, a.active.value, true, a, dryRun, looked);
    } else if Target(req, a).Some? {
      AttachDecisions(req, a.suggested.value, false, a, dryRun, SuggestedLookup(a, looked));
    } else {
      var decisions := ApplyEffect(req, a, dryRun).decisions;
      if decisions.Then? {
        MadeThen(Empty, decisions.last);
      }
    }
  }

  lemma {:induction false} PassedOn(t: Trail<Warning>, texts: seq<string>)
    ensures forall w: Warning | !w.FromService? :: Count(AllFromService(t, texts), w) == Count(t, w)
  {
    if texts != [] {
      PassedOn(t, texts[..|texts| - 1]);
    }
  }

  /** So far just the failed look-ups have been warned of. */
  ghost predicate LookedUp(req: Request, a: Answers, warnings: Trail<Warning>) {
    forall w: Warning | !w.FromService? :: Count(warnings, w)
      == One(w == ActiveLookupFailed && a.activeFails)
         + One(w == SuggestedLookupFailed && !req.resolved && a.active.None? && a.suggestedFails)
  }

  lemma LookUps(req: Request, a: Answers)
    ensures var looked := ActiveLookup(a, NOTHING);
            LookedUp(req, a, (if req.resolved || a.active.Some? then looked else SuggestedLookup(a, looked)).warnings)
  {
    var first := When(Empty, a.activeFails, ActiveLookupFailed);
    CountWhen(Empty, a.activeFails, ActiveLookupFailed);
    PassedOn(first, a.activeWarnings);
    PassedOn(AllFromService(first, a.activeWarnings), a.activeWarnings);
    var looked := ActiveLookup(a, NOTHING).warnings;
    CountWhen(looked, a.suggestedFails, SuggestedLookupFailed);
    PassedOn(When(looked, a.suggestedFails, SuggestedLookupFailed), a.suggestedWarnings);
  }

  /** The program's warnings, without those passed on. */
  ghost predicate OwnWarned(req: Request, a: Answers, dryRun: bool, warnings: Trail<Warning>) {
    forall w: Warning | !w.FromService? :: Count(warnings, w) == One(IsWarned(req, a, dryRun, w))
  }

  lemma AttachWarned(req: Request, target: IncidentRef, isActive: bool, a: Answers, dryRun: bool, e: Effect)
    requires LookedUp(req, a, e.warnings) && Target(req, a) == Some(target)
    ensures OwnWarned(req, a, dryRun, AttachEffect(req, target, isActive, a, dryRun, e).warnings)
  {
    RankMeans(req.severity, target.severity);
    if !dryRun {
      forall w: Warning | !w.FromService?
        ensures Count(AttachEffect(req, target, isActive, a, dryRun, e).warnings, w)
             == One(IsWarned(req, a, dryRun, w))
      {
        AttachedWarnings(req, target, a, e.warnings, w);
      }
    }
  }

  lemma AttachedWarnings(req: Request, target: IncidentRef, a: Answers, before: Trail<Warning>, w: Warning)
    requires LookedUp(req, a, before) && Target(req, a) == Some(target) && !w.FromService?
    ensures var fails := MoreSevere(req.severity, target.severity) && a.severityFails;
            var raised := When(before, fails, SeverityFailed);
            Count(When(When(raised, a.noteFails, NoteFailed), a.historyFails, HistoryFailed), w)
            == One(IsWarned(req, a, false, w))
  {
    var fails := MoreSevere(req.severity, target.severity) && a.severityFails;
    FourMore(before, fails, SeverityFailed, a.noteFails, NoteFailed, a.historyFails, HistoryFailed,
             false, StartFailed, w);
    AttachedSum(req, a, w);
  }

  lemma AttachedSum(req: Request, a: Answers, w: Warning)
    requires Target(req, a).Some? && !w.FromService?
    ensures One(IsWarned(req, a, false, w))
         == One(w == ActiveLookupFailed && a.activeFails)
            + One(w == SuggestedLookupFailed && !req.resolved && a.active.None? && a.suggestedFails)
            + One(Escalates(req, a) && a.severityFails && w == SeverityFailed) + One(a.noteFails && w == NoteFailed)
            + One(a.historyFails && w == HistoryFailed)
  {
  }

  lemma SuggestWarned(req: Request, activeExists: bool, a: Answers, e: Effect)
    requires LookedUp(req, a, e.warnings) && Suggests(req, a) && activeExists == (req.mode == AutoMode)
    ensures OwnWarned(req, a, false, SuggestEffect(req, activeExists, a, e).warnings)
  {
    if a.suggest.None? {
      CountWhen(e.warnings, true, SuggestFailed);
    } else {
      forall w: Warning | !w.FromService?
        ensures Count(SuggestEffect(req, activeExists, a, e).warnings, w) == One(IsWarned(req, a, false, w))
      {
        SuggestedWarnings(req, a, e.warnings, w);
      }
    }
  }

  /** The warnings of an incident that was suggested. */
  lemma SuggestedWarnings(req: Request, a: Answers, before: Trail<Warning>, w: Warning)
    requires LookedUp(req, a, before) && Suggests(req, a) && a.suggest.Some? && !w.FromService?
    ensures var noted := When(before, a.noteFails, NoteFailed);
            var summed := When(noted, req.hasSummary && a.summaryFails, SummaryFailed);
            var described := When(summed, req.hasDescription && a.descriptionFails, DescriptionFailed);
            Count(When(described, a.historyFails, HistoryFailed), w) == One(IsWarned(req, a, false, w))
  {
    var summaryFails, descriptionFails := req.hasSummary && a.summaryFails, req.hasDescription && a.descriptionFails;
    FourMore(before, a.noteFails, NoteFailed, summaryFails, SummaryFailed, descriptionFails, DescriptionFailed,
             a.historyFails, HistoryFailed, w);
    SuggestedSum(req, a, w);
  }

  lemma FourMore(t: Trail<Warning>, p1: bool, x1: Warning, p2: bool, x2: Warning, p3: bool, x3: Warning,
                 p4: bool, x4: Warning, w: Warning)
    ensures Count(When(When(When(When(t, p1, x1), p2, x2), p3, x3), p4, x4), w)
         == Count(t, w) + One(p1 && w == x1) + One(p2 && w == x2) + One(p3 && w == x3) + One(p4 && w == x4)
  {
    var t1 := When(t, p1, x1);
    var t2 := When(t1, p2, x2);
    var t3 := When(t2, p3, x3);
    OneMore(t, p1, x1, w);
    OneMore(t1, p2, x2, w);
    OneMore(t2, p3, x3, w);
    OneMore(t3, p4, x4, w);
  }

  lemma OneMore(t: Trail<Warning>, due: bool, x: Warning, w: Warning)
    ensures Count(When(t, due, x), w) == Count(t, w) + One(due && w == x)
  {
  }

  lemma SuggestedSum(req: Request, a: Answers, w: Warning)
    requires Suggests(req, a) && a.suggest.Some? && !w.FromService?
    ensures One(IsWarned(req, a, false, w))
         == One(w == ActiveLookupFailed && a.activeFails)
            + One(w == SuggestedLookupFailed && !req.resolved && a.active.None? && a.suggestedFails)
            + One(a.noteFails && w == NoteFailed) + One(req.hasSummary && a.summaryFails && w == SummaryFailed)
            + One(req.hasDescription && a.descriptionFails && w == DescriptionFailed)
            + One(a.historyFails && w == HistoryFailed)
  {
  }

  lemma OpenWarned(req: Request, a: Answers, e: Effect)
    requires LookedUp(req, a, e.warnings) && !req.resolved && Target(req, a) == None
    ensures OwnWarned(req, a, false, OpenEffect(req, a, false, e).warnings)
  {
    if Suggests(req, a) {
      var start := StartIncident(req.service, req.severity, req.title);
      SuggestWarned(req, req.mode == AutoMode, a,
                    if req.mode == AutoMode then e.(writes := Then(e.writes, start)) else e);
    } else {
      StartedWarned(req, a, e);
    }
  }

  lemma StartedSum(req: Request, a: Answers, w: Warning)
    requires Starts(req, a) && !Suggests(req, a) && !w.FromService?
    ensures One(IsWarned(req, a, false, w))
         == One(w == ActiveLookupFailed && a.activeFails)
            + One(w == SuggestedLookupFailed && !req.resolved && a.active.None? && a.suggestedFails)
            + if a.start == StartFails then One(w == StartFailed)
              else One(a.noteFails && w == NoteFailed) + One(a.historyFails && w == HistoryFailed)
  {
  }

  lemma StartedWarned(req: Request, a: Answers, e: Effect)
    requires LookedUp(req, a, e.warnings) && Starts(req, a) && !Suggests(req, a)
    ensures OwnWarned(req, a, false, OpenEffect(req, a, false, e).warnings)
  {
    var noted := When(e.warnings, a.noteFails, NoteFailed);
    forall w: Warning | !w.FromService?
      ensures Count(OpenEffect(req, a, false, e).warnings, w) == One(IsWarned(req, a, false, w))
    {
      OneMore(e.warnings, a.noteFails, NoteFailed, w);
      OneMore(noted, a.historyFails, HistoryFailed, w);
      OneMore(e.warnings, true, StartFailed, w);
      StartedSum(req, a, w);
    }
  }

  lemma WarningsExactly(req: Request, a: Answers, dryRun: bool)
    ensures Warned(req, a, dryRun, ApplyEffect(req, a, dryRun).warnings)
  {
    LookUps(req, a);
    var looked := ActiveLookup(a, NOTHING);
    if req.resolved {
      CountWhen(looked.warnings, a.resolveFails, ResolutionFailed);
    } else if a.active.Some? {
      AttachWarned(req, a.active.value, true, a, dryRun, looked);
    } else if Target(req, a).Some? {
      AttachWarned(req, a.suggested.value, false, a, dryRun, SuggestedLookup(a, looked));
    } else if !dryRun {
      OpenWarned(req, a, SuggestedLookup(a, looked));
    }
    assert OwnWarned(req, a, dryRun, ApplyEffect(req, a, dryRun).warnings);
    forall text
      ensures Count(ApplyEffect(req, a, dryRun).warnings, FromService(text))
           == 2 * Occurrences(a.activeWarnings, text)
              + if req.resolved || a.active.Some? then 0 else Occurrences(a.suggestedWarnings, text)
    {
      ServiceWarningsReported(req, a, dryRun, text);
    }
  }

  lemma OpenCounters(req: Request, a: Answers, dryRun: bool, e: Effect)
    requires !req.resolved && Target(req, a) == None && e.counter == NoCounter
    ensures IsCounted(req, a, dryRun, OpenEffect(req, a, dryRun, e).counter)
    ensures OpenEffect(req, a, dryRun, e).failed
         == e.failed + One(IsWarned(req, a, dryRun, NoteFailed)) + One(IsWarned(req, a, dryRun, StartFailed))
            + One(IsWarned(req, a, dryRun, SuggestFailed))
  {
  }

  lemma CountersExactly(req: Request, a: Answers, dryRun: bool)
    ensures IsCounted(req, a, dryRun, ApplyEffect(req, a, dryRun).counter)
    ensures ApplyEffect(req, a, dryRun).failed == FailuresCounted(req, a, dryRun)
  {
    if !req.resolved && Target(req, a) == None {
      OpenCounters(req, a, dryRun, SuggestedLookup(a, ActiveLookup(a, NOTHING)));
    }
  }

  /** What apply does is what the alert and the answers call for: its writes, its decisions, its
      warnings and its counts. */
  lemma OutcomeExactly(req: Request, a: Answers, dryRun: bool)
    ensures Outcome(req, a, dryRun, ApplyEffect(req, a, dryRun))
  {
    WritesExactly(req, a, dryRun);
    DecisionsExactly(req, a, dryRun);
    WarningsExactly(req, a, dryRun);
    CountersExactly(req, a, dryRun);
  }

  // ----- what a panic leaves of it -----

  /** Without counters an alert that must be counted panics: the writes before that are made,
      but no history, and no note on an incident that was there. */
  ghost predicate WroteBeforeCount(req: Request, a: Answers, writes: Trail<Write>) {
    && InTurn(writes)
    && forall w :: Made(writes, w) <==> IsDue(req, a, w) && !w.History? && !(w.NoteAlert? && Target(req, a).Some?)
  }

  lemma {:induction false} TurnsRise(writes: Trail<Write>)
    requires InTurn(writes) && writes.Then?
    ensures forall w | Made(writes.before, w) :: Turn(w) < Turn(writes.last)
  {
    if writes.before.Then? {
      TurnsRise(writes.before);
    }
  }

  lemma WithoutLast(writes: Trail<Write>)
    requires InTurn(writes) && writes.Then?
    ensures InTurn(writes.before)
    ensures forall w :: Made(writes.before, w) <==> Made(writes, w) && w != writes.last
    ensures forall w | Made(writes.before, w) :: Turn(w) < Turn(writes.last)
  {
    TurnsRise(writes);
  }

  lemma PanicExactly(req: Request, a: Answers)
    requires ApplyEffect(req, a, false).counter != NoCounter
    ensures WroteBeforeCount(req, a, MadeBeforeCount(ApplyEffect(req, a, false)))
  {
    var e := ApplyEffect(req, a, false);
    WritesExactly(req, a, false);
    CountersExactly(req, a, false);
    HistoryIsLast(req, a);
    WithoutLast(e.writes);
    if e.counter == Deduped {
      WithoutLast(e.writes.before);
    }
  }

  lemma HistoryIsLast(req: Request, a: Answers)
    requires ApplyEffect(req, a, false).counter != NoCounter
    ensures var e := ApplyEffect(req, a, false);
            && e.writes.Then? && e.writes.last.History?
            && (e.counter == Deduped ==> e.writes.before.Then? && e.writes.before.last.NoteAlert?)
  {
  }
}
