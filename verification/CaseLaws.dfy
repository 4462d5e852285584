/**
 What every sequence of API writes keeps true of one case: its two derived dates, its dockets,
 its workflow log, its slug. And what one rewrite of the entity list stores.
 */
module CaseLaws {
  import opened Common
  import opened Stages
  import opened Cases

  // ----- runs -----

  /** A save is of any instance of the case: edited, with assignments pending, or loaded long before. */
  datatype Action = Patch(req: Request) | Destroy | Approve(intent: Intent) | Save(instance: Instance)

  /** One write on the case; a refused write leaves it as it was. */
  ghost function Attempt(c: Case, a: Action): Result<Case, Refusal> {
    match a
    case Patch(req) => Patched(c, req)
    case Destroy => Destroyed(c)
    case Approve(intent) => Applied(c, intent)
    case Save(instance) => SavedInstance(c, instance)
  }

  ghost function After(c: Case, a: Action): Case {
    match Attempt(c, a)
    case Ok(next) => next
    case Err(_) => c
  }

  ghost function Run(c: Case, actions: seq<Action>): Case {
    if actions == [] then c
    else After(Run(c, actions[..|actions| - 1]), actions[|actions| - 1])
  }

  // ----- the derived dates and the dockets -----

  /** The stages are acceptable for the bound dockets and the two columns are theirs. */
  ghost predicate DatesConsistent(c: Case) {
    && StagesFit(c.row.stages, c.courtCases)
    && (c.row.started, c.row.decided) == Derived(c.row.stages)
  }

  lemma WrittenKeepsDates(c: Case, req: Request, doc: Doc, stages: seq<Stage>)
    requires StagesFit(stages, RequestedDockets(c, req, doc)) && Written(c, req, doc, stages).Ok?
    ensures DatesConsistent(Written(c, req, doc, stages).value)
  {
  }

  lemma CommittedKeepsDates(c: Case, req: Request, doc: Doc)
    requires Committed(c, req, doc).Ok?
    ensures DatesConsistent(Committed(c, req, doc).value)
  {
    WrittenKeepsDates(c, req, doc, RequestedStages(req, doc).value);
  }

  /** What no approved intent reaches: the workflow, the slug, the stages and the dockets. */
  lemma IntentsReachOnly(c: Case, intent: Intent)
    requires Applied(c, intent).Ok?
    ensures var after := Applied(c, intent).value;
            && after == c.(row := after.row, binds := after.binds, evidence := after.evidence)
            && after.row == c.row.(timeline := after.row.timeline, fields := after.row.fields,
                                   version := after.row.version)
            && (forall f | f !in RAW_PATCH_FIELDS ::
                  (f in after.row.fields <==> f in c.row.fields)
                  && (f in c.row.fields ==> after.row.fields[f] == c.row.fields[f]))
            && c.row.version <= after.row.version
            && (after.row.version == c.row.version ==> after == c)
  {
    if intent.SetOutcomes? && !AnyChange(c.binds, intent.outcomes) {
      NoChangeWritesNothing(c.binds, intent.outcomes);
    }
  }

  /** When an intent is applied, type by type. */
  lemma IntentIsAppliedExactlyWhen(c: Case, intent: Intent)
    ensures Applied(c, intent).Ok?
            <==> match intent
                 case AppendTimeline(entry) => entry.Some?
                 case LinkMaterial(material, wellFormed, _) => material != "" && wellFormed
                 case RawPatch(paths, edit) =>
                   && (forall path | path in paths :: path == "timeline" || path in RAW_PATCH_FIELDS)
                   && edit(RawViewOf(c.row)).Some?
                 case SetOutcomes(outcomes) => outcomes != [] && FirstFault(c.binds, outcomes) == None
                 case UnknownIntent => false
  {
    match intent
    case RawPatch(paths, edit) =>
      assert forall i | 0 <= i < |paths| :: paths[i] in paths;
      if path :| path in paths && !RawPathAllowed(path) {
        var i :| 0 <= i < |paths| && paths[i] == path;
        assert !RawPathAllowed(paths[i]);
      }
    case _ =>
  }

  /** Why an intent is refused: verdicts by the first faulty entry, everything else as malformed. */
  lemma IntentIsRefusedFor(c: Case, intent: Intent)
    requires Applied(c, intent).Err?
    ensures !intent.SetOutcomes? || intent.outcomes == [] ==> Applied(c, intent).error == BadIntent
    ensures intent.SetOutcomes? && intent.outcomes != [] ==>
              exists k | 0 <= k < |intent.outcomes| ::
                && EntryRefusal(c.binds, intent.outcomes[k]) == Some(Applied(c, intent).error)
                && forall j | 0 <= j < k :: EntryRefusal(c.binds, intent.outcomes[j]) == None
  {
    if intent.SetOutcomes? && intent.outcomes != [] {
      FirstFaultIsFirst(c.binds, intent.outcomes);
    }
  }

  /** What is wrong with one verdict: nobody, not final, nobody bound, or the last bind not an accused. */
  function EntryRefusal(binds: seq<Bind>, entry: (string, Outcome)): Option<Refusal> {
    if entry.0 == "" then Some(BadIntent)
    else if entry.1 in {Charged, Remanded} then Some(NotProposable)
    else if forall i | 0 <= i < |binds| :: binds[i].nesId != entry.0 then Some(UnknownEntity)
    else if exists i | 0 <= i < |binds| :: IsLastBind(binds, i, entry.0) && binds[i].role == Accused then None
    else Some(NotAccused)
  }

  predicate IsLastBind(binds: seq<Bind>, i: nat, nesId: string) {
    && i < |binds| && binds[i].nesId == nesId
    && forall j | i < j < |binds| :: binds[j].nesId != nesId
  }

  lemma {:induction false} BindOfIsTheLast(binds: seq<Bind>, nesId: string)
    ensures BindOf(binds, nesId) == None <==> forall i | 0 <= i < |binds| :: binds[i].nesId != nesId
    ensures BindOf(binds, nesId).Some? ==> IsLastBind(binds, BindOf(binds, nesId).value, nesId)
  {
    if binds != [] {
      BindOfIsTheLast(binds[..|binds| - 1], nesId);
      assert forall i | 0 <= i < |binds| - 1 :: binds[..|binds| - 1][i] == binds[i];
    }
  }

  lemma EntryFaultIsRight(binds: seq<Bind>, entry: (string, Outcome))
    ensures EntryFault(binds, entry) == EntryRefusal(binds, entry)
  {
    BindOfIsTheLast(binds, entry.0);
    match entry.1
    case Charged => assert Charged !in TERMINAL_OUTCOMES;
    case Remanded => assert Remanded !in TERMINAL_OUTCOMES;
    case Convicted => assert Convicted in TERMINAL_OUTCOMES;
    case Acquitted => assert Acquitted in TERMINAL_OUTCOMES;
    case Abated => assert Abated in TERMINAL_OUTCOMES;
  }

  lemma {:induction false} FirstFaultIsFirst(binds: seq<Bind>, outcomes: seq<(string, Outcome)>)
    ensures match FirstFault(binds, outcomes)
            case None => forall k | 0 <= k < |outcomes| :: EntryRefusal(binds, outcomes[k]) == None
            case Some(e) =>
              exists k | 0 <= k < |outcomes| ::
                && EntryRefusal(binds, outcomes[k]) == Some(e)
                && forall j | 0 <= j < k :: EntryRefusal(binds, outcomes[j]) == None
  {
    if outcomes != [] {
      var front := outcomes[..|outcomes| - 1];
      FirstFaultIsFirst(binds, front);
      EntryFaultIsRight(binds, outcomes[|outcomes| - 1]);
      assert forall k | 0 <= k < |front| :: front[k] == outcomes[k];
    }
  }

  /**
   What an applied intent leaves to be read: the entry at the end of the timeline; the material
   cited, last if it is new, under its relation; the patched view, which shows only the allowed
   columns; and a fresh version with every change.
   */
  lemma IntentIsReadBack(c: Case, intent: Intent)
    requires Applied(c, intent).Ok?
    ensures var after := Applied(c, intent).value;
            match intent
            case AppendTimeline(entry) =>
              after.row.timeline == c.row.timeline + [entry.value] && after.row.version == c.row.version + 1
            case LinkMaterial(material, _, relation) =>
              if exists i | 0 <= i < |c.evidence| :: c.evidence[i].iri == material then after == c
              else
                && |after.evidence| == |c.evidence| + 1 && after.evidence[..|c.evidence|] == c.evidence
                && after.evidence[|c.evidence|].iri == material
                && after.evidence[|c.evidence|].details == (if relation == "" then "" else "relation: " + relation)
                && after.row.version == c.row.version + 1
            case RawPatch(_, edit) =>
              var view, shown := edit(RawViewOf(c.row)).value, RawViewOf(after.row);
              && shown.timeline == Some(Keep(view.timeline, c.row.timeline))
              && (forall f | f in RAW_PATCH_FIELDS && f in view.fields ::
                    f in shown.fields && shown.fields[f] == view.fields[f])
              && (forall f | f in c.row.fields && !(f in RAW_PATCH_FIELDS && f in view.fields) ::
                    f in after.row.fields && after.row.fields[f] == c.row.fields[f])
              && (after.row.version == c.row.version
                  <==> view.timeline == None && forall f | f in view.fields :: f !in RAW_PATCH_FIELDS)
            case SetOutcomes(outcomes) =>
              after.row.version
              == if forall k | 0 <= k < |outcomes| :: VerdictStands(c.binds, outcomes[k]) then c.row.version
                 else c.row.version + 1
            case UnknownIntent => true
  {
    match intent
    case RawPatch(_, edit) => RawPatchIsReadBack(c.row, edit(RawViewOf(c.row)).value);
    case SetOutcomes(outcomes) => AnyChangeExactly(c.binds, outcomes);
    case _ =>
  }

  /** The verdict is the one stored on the bind the entity resolves to. */
  predicate VerdictStands(binds: seq<Bind>, entry: (string, Outcome)) {
    exists i | 0 <= i < |binds| :: IsLastBind(binds, i, entry.0) && binds[i].outcome == Some(entry.1)
  }

  lemma VerdictStandsExactly(binds: seq<Bind>, entry: (string, Outcome))
    requires BindOf(binds, entry.0).Some?
    ensures VerdictStands(binds, entry) <==> binds[BindOf(binds, entry.0).value].outcome == Some(entry.1)
  {
    BindOfIsTheLast(binds, entry.0);
  }

  lemma LastWriteChangesExactly(binds: seq<Bind>, outcomes: seq<(string, Outcome)>)
    requires outcomes != [] && FirstFault(binds, outcomes) == None
    requires OutcomesWritten(binds, outcomes[..|outcomes| - 1]) == binds
    ensures OutcomesWritten(binds, outcomes) == binds <==> VerdictStands(binds, outcomes[|outcomes| - 1])
  {
    var last := outcomes[|outcomes| - 1];
    VerdictStandsExactly(binds, last);
    var at := BindOf(binds, last.0).value;
    assert OutcomesWritten(binds, outcomes) == binds[at := binds[at].(outcome := Some(last.1))];
  }

  lemma AllStandSnoc(binds: seq<Bind>, outcomes: seq<(string, Outcome)>)
    requires outcomes != []
    ensures var front := outcomes[..|outcomes| - 1];
            (exists k | 0 <= k < |outcomes| :: !VerdictStands(binds, outcomes[k]))
            <==> || (exists k | 0 <= k < |front| :: !VerdictStands(binds, front[k]))
                 || !VerdictStands(binds, outcomes[|outcomes| - 1])
  {
    assert forall k | 0 <= k < |outcomes| - 1 :: outcomes[..|outcomes| - 1][k] == outcomes[k];
  }

  lemma {:induction false} AnyChangeExactly(binds: seq<Bind>, outcomes: seq<(string, Outcome)>)
    requires FirstFault(binds, outcomes) == None
    ensures AnyChange(binds, outcomes) <==> exists k | 0 <= k < |outcomes| :: !VerdictStands(binds, outcomes[k])
  {
    if outcomes != [] {
      var front := outcomes[..|outcomes| - 1];
      AnyChangeExactly(binds, front);
      AllStandSnoc(binds, outcomes);
      if !AnyChange(binds, front) {
        NoChangeWritesNothing(binds, front);
        LastWriteChangesExactly(binds, outcomes);
      }
    }
  }

  lemma RawPatchIsReadBack(row: Row, view: RawView)
    ensures var known := map f | f in view.fields && f in RAW_PATCH_FIELDS :: view.fields[f];
            && (known == map[] <==> forall f | f in view.fields :: f !in RAW_PATCH_FIELDS)
            && (known == map[] ==> row.fields + known == row.fields)
  {
    var known := map f | f in view.fields && f in RAW_PATCH_FIELDS :: view.fields[f];
    if f :| f in view.fields && f in RAW_PATCH_FIELDS {
      assert f in known;
    }
  }

  /** A raw patch sees every allowed column that is stored, and no other. */
  lemma RawViewShowsTheAllowed(row: Row)
    ensures RawViewOf(row).timeline == Some(row.timeline)
    ensures forall f :: f in RawViewOf(row).fields <==>
              f in row.fields && f in {"description", "short_description", "notes", "public_notes", "tags",
                                       "key_allegations", "missing_details"}
    ensures forall f | f in RawViewOf(row).fields :: RawViewOf(row).fields[f] == row.fields[f]
  {
  }

  lemma {:induction false} NoChangeWritesNothing(binds: seq<Bind>, outcomes: seq<(string, Outcome)>)
    requires !AnyChange(binds, outcomes)
    ensures OutcomesWritten(binds, outcomes) == binds
  {
    if outcomes != [] {
      NoChangeWritesNothing(binds, outcomes[..|outcomes| - 1]);
    }
  }

  lemma AttemptKeepsDates(c: Case, a: Action)
    requires DatesConsistent(c)
    ensures DatesConsistent(After(c, a))
  {
    match a
    case Patch(req) =>
      if Patched(c, req).Ok? {
        CommittedKeepsDates(c, req, req.edit(Snapshot(c)).value);
      }
    case Destroy =>
    case Approve(intent) =>
      if Applied(c, intent).Ok? {
        IntentsReachOnly(c, intent);
      }
    case Save(_) =>
  }

  /**
   After every run from a creation, saves of edited instances with pending dockets among its
   writes, each stage cites a docket of the case and the two stored dates are the ones derived
   from the stages.
   */
  lemma {:induction false} DatesStayConsistent(c: Case, actions: seq<Action>)
    requires DatesConsistent(c)
    ensures DatesConsistent(Run(c, actions))
    ensures forall s | s in Run(c, actions).row.stages && s.Stage? && s.iri != "" ::
              s.iri in Run(c, actions).courtCases
  {
    if actions != [] {
      DatesStayConsistent(c, actions[..|actions| - 1]);
      AttemptKeepsDates(Run(c, actions[..|actions| - 1]), actions[|actions| - 1]);
    }
    var end := Run(c, actions);
    forall s | s in end.row.stages && s.Stage? && s.iri != ""
      ensures s.iri in end.courtCases
    {
      ValidRecordObeys(s, Some(set iri | iri in end.courtCases), CitesABoundDocket);
    }
  }

  /** A created case starts consistent, in DRAFT, with an empty log; deprecated dates are its first instance. */
  lemma CreatedIsConsistent(s: Creation)
    requires Created(s).Ok?
    ensures var c := Created(s).value;
            && DatesConsistent(c) && WorkflowLogged(c) && c.row.state == Draft && c.log == []
            && (s.dates == None ==> FirstInstanceDates(c.row.stages) == (s.legacyStart, s.legacyEnd))
  {
    if s.dates == None && CreatedStages(s) != [] {
      var only := CreatedStages(s);
      InitialSnoc([], only[0]);
      assert [] + only == only;
      OnRecords(only, "start", s.legacyStart);
    }
  }

  /** A case that saves here never has its next transition refused over its stages. */
  lemma StagesNeverBlockATransition(c: Case, target: State, reason: string)
    requires DatesConsistent(c)
    ensures Moved(c, c.row.slug, target, reason) != Err(BadStages)
  {
  }

  /** The transition inside a PATCH validates the very stages the PATCH has just accepted. */
  lemma AcceptedStagesStayAccepted(c: Case, req: Request, doc: Doc, stages: seq<Stage>)
    requires StagesFit(stages, RequestedDockets(c, req, doc))
    ensures Written(c, req, doc, stages) != Err(BadStages)
  {
  }

  /**
   A PATCH is refused over its stages exactly when those it asks for do not fit the dockets it
   asks for: never over the dockets it replaces, and never by the transition it ends with.
   */
  lemma StagesAreJudgedByTheRequest(c: Case, req: Request, doc: Doc)
    ensures Committed(c, req, doc) == Err(BadStages)
            <==> RequestedStages(req, doc).Ok?
                 && !StagesFit(RequestedStages(req, doc).value, RequestedDockets(c, req, doc))
  {
    match RequestedStages(req, doc)
    case Err(_) =>
    case Ok(stages) =>
      if StagesFit(stages, RequestedDockets(c, req, doc)) {
        AcceptedStagesStayAccepted(c, req, doc, stages);
      }
  }

  // ----- reading back a PATCH -----

  /** The stored binds show the submitted ones; a verdict that was sent to an accused is there. */
  predicate EntitiesShown(shown: seq<EntityItem>, sent: seq<EntityItem>) {
    && |shown| == |sent|
    && forall i | 0 <= i < |sent| ::
         && shown[i].nesId == sent[i].nesId && shown[i].role == sent[i].role && shown[i].notes == sent[i].notes
         && (sent[i].role == Accused && sent[i].outcome.Sent? ==> shown[i].outcome == sent[i].outcome)
         && (sent[i].role != Accused ==> shown[i].outcome == SentNull)
  }

  /** A snapshot shows the scalar values a document asked for. */
  predicate ScalarsShown(s: Doc, doc: Doc) {
    && (doc.slug.Some? ==> s.slug == doc.slug) && (doc.state.Some? ==> s.state == doc.state)
    && (doc.legacyStart.Some? ==> s.legacyStart == doc.legacyStart)
    && (doc.legacyEnd.Some? ==> s.legacyEnd == doc.legacyEnd)
    && (doc.publishDate.Some? ==> s.publishDate == doc.publishDate)
    && (doc.statusOverride.Some? ==> s.statusOverride == doc.statusOverride)
    && (doc.timeline.Some? ==> s.timeline == doc.timeline)
    && (forall f | f in doc.fields :: f in s.fields && s.fields[f] == doc.fields[f])
  }

  /** It shows the lists the ops ask for, and leaves the others as they were. */
  ghost predicate JoinsShown(before: Doc, s: Doc, doc: Doc, ops: seq<Op>) {
    && s.evidence == (if Touches(ops, "/evidence") then doc.evidence else before.evidence)
    && s.courtCases == (if Touches(ops, "/court_cases") then doc.courtCases else before.courtCases)
    && (if Touches(ops, "/entities")
        then doc.entities.Some? && s.entities.Some? && EntitiesShown(s.entities.value, doc.entities.value)
        else s.entities == before.entities)
    && (if Touches(ops, "/authors") then forall x :: x in s.authors <==> x in doc.authors
        else s.authors == before.authors)
  }

  lemma JoinsWrittenShow(c: Case, req: Request, doc: Doc)
    requires JoinsWritten(c, req, doc).Ok?
    ensures JoinsShown(Snapshot(c), Snapshot(JoinsWritten(c, req, doc).value), doc, req.ops)
    ensures JoinsWritten(c, req, doc).value.row == c.row && JoinsWritten(c, req, doc).value.log == c.log
  {
    FirstsKeep(doc.authors);
    if Touches(req.ops, "/evidence") {
      assert EvidenceItems(RewrittenEvidence(doc.evidence)) == doc.evidence;
    }
  }

  /** A transition changes the state, the log and the version, and refreshes the two dates. */
  lemma MovedShape(c: Case, originalSlug: string, target: State, reason: string)
    requires Moved(c, originalSlug, target, reason).Ok?
    ensures var m := Moved(c, originalSlug, target, reason).value;
            && m == c.(row := m.row, log := m.log)
            && m.row == c.row.(state := target, started := m.row.started, decided := m.row.decided,
                               version := m.row.version)
            && c.row.version < m.row.version
  {
  }

  lemma WrittenShape(c: Case, req: Request, doc: Doc, stages: seq<Stage>)
    requires Written(c, req, doc, stages).Ok?
    ensures var scalars := c.(row := ScalarsWritten(c.row, doc, stages));
            var after := Written(c, req, doc, stages).value;
            && JoinsWritten(scalars, req, doc).Ok?
            && after == JoinsWritten(scalars, req, doc).value.(row := after.row, log := after.log)
            && after.row == scalars.row.(state := Keep(doc.state, c.row.state), started := after.row.started,
                                         decided := after.row.decided, version := after.row.version)
            && c.row.version < after.row.version
  {
    var joined := JoinsWritten(c.(row := ScalarsWritten(c.row, doc, stages)), req, doc).value;
    if doc.state.Some? && doc.state.value != joined.row.state {
      MovedShape(joined, c.row.slug, doc.state.value, req.reason);
    }
  }

  /**
   What an accepted PATCH asked for is what the next snapshot shows, transition included; the
   lists it did not touch are as they were, and so is every field it does not carry.
   */
  lemma PatchIsReadBack(c: Case, req: Request)
    requires Patched(c, req).Ok?
    ensures var doc, s := req.edit(Snapshot(c)).value, Snapshot(Patched(c, req).value);
            && ScalarsShown(s, doc) && JoinsShown(Snapshot(c), s, doc, req.ops)
            && (!Touches(req.ops, "/case_start_date") && !Touches(req.ops, "/case_end_date") ==> s.stages == doc.stages)
            && (forall f | f in c.row.fields && f !in doc.fields :: f in s.fields && s.fields[f] == c.row.fields[f])
  {
    var doc := req.edit(Snapshot(c)).value;
    var stages := RequestedStages(req, doc).value;
    WrittenShape(c, req, doc, stages);
    JoinsWrittenShow(c.(row := ScalarsWritten(c.row, doc, stages)), req, doc);
  }

  predicate TouchesNoList(ops: seq<Op>) {
    && !Touches(ops, "/case_start_date") && !Touches(ops, "/case_end_date") && !Touches(ops, "/entities")
    && !Touches(ops, "/evidence") && !Touches(ops, "/court_cases") && !Touches(ops, "/authors")
  }

  lemma OwnScalars(c: Case)
    requires DatesConsistent(c)
    ensures ScalarsWritten(c.row, Snapshot(c), c.row.stages) == c.row.(version := c.row.version + 1)
  {
    assert c.row.fields + c.row.fields == c.row.fields;
  }

  lemma OwnDocumentIsCommitted(c: Case, req: Request)
    requires DatesConsistent(c) && TouchesNoList(req.ops)
    ensures Committed(c, req, Snapshot(c)) == Ok(c.(row := c.row.(version := c.row.version + 1)))
  {
    OwnScalars(c);
    assert RequestedStages(req, Snapshot(c)) == Ok(c.row.stages);
    assert RequestedDockets(c, req, Snapshot(c)) == c.courtCases;
    assert StagesFit(c.row.stages, c.courtCases);
  }

  /** Sending back the snapshot as it was read changes nothing but the version. */
  lemma UneditedPatchChangesNothing(c: Case, req: Request)
    requires DatesConsistent(c) && c.row.state != Closed
    requires PathsAllowed(req.ops, c.row.state) && TouchesNoList(req.ops)
    requires req.edit(Snapshot(c)) == Some(Snapshot(c))
    ensures Patched(c, req) == Ok(c.(row := c.row.(version := c.row.version + 1)))
  {
    OwnDocumentIsCommitted(c, req);
  }

  // ----- the workflow -----

  /** The state a log leads to from DRAFT; None when it is not a path of allowed moves. */
  function Follow(log: seq<StateChange>): Option<State> {
    if log == [] then Some(Draft)
    else
      var last := log[|log| - 1];
      match Follow(log[..|log| - 1])
      case None => None
      case Some(s) => if last.source == s && Allowed(s, last.target) then Some(last.target) else None
  }

  predicate WorkflowLogged(c: Case) {
    Follow(c.log).Some? && (c.row.state == Follow(c.log).value || c.row.state == Closed)
  }

  /** How one commit may change the workflow of a case. */
  ghost predicate WorkflowStep(before: Case, after: Case) {
    || (after.row.state == before.row.state && after.log == before.log)
    || (after.row.state == Closed && before.row.state != Closed && after.log == before.log)
    || (&& Allowed(before.row.state, after.row.state)
        && |after.log| == |before.log| + 1 && after.log[..|before.log|] == before.log
        && after.log[|before.log|].source == before.row.state
        && after.log[|before.log|].target == after.row.state
        && (after.row.state in {InReview, Published} ==> Publishable(after)))
  }

  /** The state columns are left to the workflow methods: a save keeps the state or closes the case. */
  predicate SparesState(c: Case, a: Action) {
    a.Save? ==> a.instance.row.state in {c.row.state, Closed}
  }

  lemma PatchMoves(c: Case, req: Request)
    ensures WorkflowStep(c, After(c, Patch(req)))
    ensures c.row.state == Closed ==> After(c, Patch(req)) == c
  {
    if Patched(c, req).Ok? {
      var doc := req.edit(Snapshot(c)).value;
      var stages := RequestedStages(req, doc).value;
      var written := JoinsWritten(c.(row := ScalarsWritten(c.row, doc, stages)), req, doc).value;
      assert written.row.state == c.row.state && written.log == c.log;
    }
  }

  lemma SaveMoves(c: Case, i: Instance)
    requires SavedInstance(c, i).Ok?
    ensures WorkflowStep(c, After(c, Save(i))) <==> SparesState(c, Save(i))
  {
    assert After(c, Save(i)).log == c.log && After(c, Save(i)).row.state == i.row.state;
  }

  /** A write is a step of the workflow exactly when it spares the state or is refused. */
  lemma AttemptMoves(c: Case, a: Action)
    ensures WorkflowStep(c, After(c, a)) <==> SparesState(c, a) || Attempt(c, a).Err?
    ensures c.row.state == Closed && !a.Approve? && !a.Save? ==> After(c, a) == c
  {
    match a
    case Patch(req) => PatchMoves(c, req);
    case Destroy =>
    case Approve(intent) =>
    case Save(i) =>
      if SavedInstance(c, i).Ok? {
        SaveMoves(c, i);
      }
  }

  /** Every write of the run spares the state or is refused. */
  ghost predicate StateSpared(c: Case, actions: seq<Action>) {
    actions == []
    || (var (front, last) := (actions[..|actions| - 1], actions[|actions| - 1]);
        StateSpared(c, front) && (SparesState(Run(c, front), last) || Attempt(Run(c, front), last).Err?))
  }

  lemma FollowStep(before: Case, after: Case)
    requires WorkflowStep(before, after) && WorkflowLogged(before)
    ensures WorkflowLogged(after)
    ensures before.row.state == Closed ==> after.row.state == Closed
  {
    if |after.log| == |before.log| + 1 {
      assert after.log[..|after.log| - 1] == before.log;
    }
  }

  lemma {:induction false} StepOfTheRun(c: Case, actions: seq<Action>, k: nat)
    requires StateSpared(c, actions) && k < |actions|
    ensures WorkflowStep(Run(c, actions[..k]), Run(c, actions[..k + 1]))
  {
    var front := actions[..|actions| - 1];
    if k < |front| {
      StepOfTheRun(c, front, k);
      assert front[..k] == actions[..k] && front[..k + 1] == actions[..k + 1];
    } else {
      AttemptMoves(Run(c, front), actions[k]);
      assert actions[..k + 1] == actions;
    }
  }

  /**
   For every run whose saves spare the state: the log is a connected path of allowed moves from
   DRAFT, the state is where it ends or CLOSED, CLOSED is never left, the log only grows, and a
   commit that enters IN_REVIEW or PUBLISHED stores a named subject, an author and a publish date.
   */
  lemma {:induction false} WorkflowOfEveryRun(c: Case, actions: seq<Action>)
    requires WorkflowLogged(c) && StateSpared(c, actions)
    ensures WorkflowLogged(Run(c, actions))
    ensures c.row.state == Closed ==> Run(c, actions).row.state == Closed
    ensures c.log <= Run(c, actions).log
    ensures forall k | 0 <= k < |actions| ::
              WorkflowStep(Run(c, actions[..k]), Run(c, actions[..k + 1]))
  {
    if actions != [] {
      var n := |actions| - 1;
      var front := actions[..n];
      WorkflowOfEveryRun(c, front);
      AttemptMoves(Run(c, front), actions[n]);
      FollowStep(Run(c, front), After(Run(c, front), actions[n]));
    }
    forall k | 0 <= k < |actions|
      ensures WorkflowStep(Run(c, actions[..k]), Run(c, actions[..k + 1]))
    {
      StepOfTheRun(c, actions, k);
    }
  }

  // ----- when a write succeeds -----

  /**
   A move of a case that saves succeeds exactly when the workflow allows it, the public states
   find what they need, and a slug changed since the load ends in DRAFT; then the case is in the
   target state, with one log row and a fresh version.
   */
  lemma MoveSucceedsExactlyWhen(c: Case, loadedSlug: string, target: State, reason: string)
    requires StagesFit(c.row.stages, c.courtCases) && c.row.state != Closed && target != c.row.state
    ensures var r := Moved(c, loadedSlug, target, reason);
            && (r.Ok? <==> && Allowed(c.row.state, target)
                           && (target in {InReview, Published} ==>
                                 c.authors != [] && c.row.publishDate != ""
                                 && exists b :: b in c.binds && b.role != Location)
                           && (loadedSlug in {"", c.row.slug} || target == Draft))
            && (r.Ok? ==> r.value.row.state == target && r.value.row.version == c.row.version + 1
                          && r.value.log == c.log + [StateChange(c.row.state, target, reason)])
  {
  }

  /** What `Allowed` says of two states: CLOSED is final, and only a DRAFT is submitted for review. */
  lemma AllowedMoves(source: State, target: State)
    requires source != target
    ensures Allowed(source, target)
            <==> source != Closed && (target == InReview ==> source == Draft)
  {
  }

  /** Under a prefix: the path itself or below it. */
  predicate At(path: string, prefix: string) {
    path == prefix || (|path| > |prefix| && path[..|prefix|] == prefix && path[|prefix|] == '/')
  }

  /** What the gate refuses of an op, path by path. */
  lemma GateRefusesExactly(op: Op, state: State)
    ensures !OpAllowed(op, state)
            <==> || (op.path == "/state" && op.kind != "replace")
                 || (At(op.path, "/slug") && state != Draft)
                 || At(op.path, "/id") || At(op.path, "/offence_type") || At(op.path, "/case_type")
                 || At(op.path, "/version") || At(op.path, "/created_at") || At(op.path, "/updated_at")
                 || At(op.path, "/versionInfo")
  {
    forall prefix: string
      ensures IsUnder(op.path, prefix) <==> At(op.path, prefix)
    {
      var below := prefix + "/";
      if below <= op.path {
        assert op.path[..|prefix|] == below[..|prefix|] == prefix && op.path[|prefix|] == below[|prefix|];
      }
      if |op.path| > |prefix| && op.path[..|prefix|] == prefix && op.path[|prefix|] == '/' {
        assert op.path[..|below|] == below;
      }
    }
  }

  /** The deprecated dates a request targets are read back off the stages it asks for; the other stays. */
  lemma LegacyDatesReachTheStages(req: Request, doc: Doc)
    requires RequestedStages(req, doc).Ok?
    ensures var (before, after) :=
              (FirstInstanceDates(doc.stages), FirstInstanceDates(RequestedStages(req, doc).value));
            && after.0 == (if Touches(req.ops, "/case_start_date") then Keep(doc.legacyStart, "") else before.0)
            && after.1 == (if Touches(req.ops, "/case_end_date") then Keep(doc.legacyEnd, "") else before.1)
  {
    var first := doc.stages;
    if Touches(req.ops, "/case_start_date") {
      first := LegacyWrite(doc.stages, "start", Keep(doc.legacyStart, "")).value;
      LegacyWriteIsRead(doc.stages, "start", Keep(doc.legacyStart, ""));
    }
    if Touches(req.ops, "/case_end_date") {
      LegacyWriteIsRead(first, "end", Keep(doc.legacyEnd, ""));
    }
  }

  /** The public states' needs, read off the request: what it sends for a list it targets, else what is stored. */
  predicate PublishableAsAsked(c: Case, req: Request, doc: Doc) {
    && (if Touches(req.ops, "/entities")
        then doc.entities.Some? && exists item :: item in doc.entities.value && item.role != Location
        else exists b :: b in c.binds && b.role != Location)
    && (if Touches(req.ops, "/authors") then doc.authors != [] else c.authors != [])
    && (if doc.publishDate.Some? then doc.publishDate.value != "" else c.row.publishDate != "")
  }

  /** Each list an op targets is there and repeats nothing. */
  predicate ListsFit(req: Request, doc: Doc) {
    && (Touches(req.ops, "/entities") ==> doc.entities.Some? && DistinctKeys(doc.entities.value))
    && (Touches(req.ops, "/evidence") ==> DistinctEvidence(doc.evidence))
    && (Touches(req.ops, "/court_cases") ==> Distinct(doc.courtCases))
  }

  /** The transition asked for, if any: allowed, publishable as asked, and to DRAFT if it also renames. */
  predicate TransitionFits(c: Case, req: Request, doc: Doc) {
    doc.state.Some? && doc.state.value != c.row.state ==>
      && Allowed(c.row.state, doc.state.value)
      && (doc.state.value in {InReview, Published} ==> PublishableAsAsked(c, req, doc))
      && (doc.state.value == Draft || c.row.slug == "" || doc.slug in {None, Some(c.row.slug)})
  }

  lemma BindsAsAsked(prior: seq<Bind>, items: seq<EntityItem>)
    ensures (exists b :: b in RewrittenBinds(prior, items) && b.role != Location)
            <==> exists item :: item in items && item.role != Location
  {
    var binds := RewrittenBinds(prior, items);
    if item :| item in items && item.role != Location {
      var i :| 0 <= i < |items| && items[i] == item;
      assert binds[i] in binds && binds[i].role == item.role;
    }
    if b :| b in binds && b.role != Location {
      var i :| 0 <= i < |binds| && binds[i] == b;
      assert items[i] in items && items[i].role == b.role;
    }
  }

  lemma JoinsSucceedExactlyWhen(c: Case, req: Request, doc: Doc)
    ensures JoinsWritten(c, req, doc).Ok? <==> ListsFit(req, doc)
    ensures ListsFit(req, doc) && c.row.publishDate == Keep(doc.publishDate, c.row.publishDate) ==>
              (Publishable(JoinsWritten(c, req, doc).value) <==> PublishableAsAsked(c, req, doc))
  {
    FirstsKeep(doc.authors);
    if doc.authors != [] {
      assert doc.authors[0] in Firsts(doc.authors);
    }
    if Firsts(doc.authors) != [] {
      assert Firsts(doc.authors)[0] in doc.authors;
    }
    if doc.entities.Some? {
      BindsAsAsked(c.binds, doc.entities.value);
    }
  }

  lemma WriteSucceedsExactlyWhen(c: Case, req: Request, doc: Doc, stages: seq<Stage>)
    requires c.row.state != Closed && StagesFit(stages, RequestedDockets(c, req, doc))
    ensures Written(c, req, doc, stages).Ok? <==> ListsFit(req, doc) && TransitionFits(c, req, doc)
  {
    var scalars := c.(row := ScalarsWritten(c.row, doc, stages));
    JoinsSucceedExactlyWhen(scalars, req, doc);
    assert PublishableAsAsked(scalars, req, doc) <==> PublishableAsAsked(c, req, doc);
    if ListsFit(req, doc) && doc.state.Some? && doc.state.value != c.row.state {
      MoveSucceedsExactlyWhen(JoinsWritten(scalars, req, doc).value, c.row.slug, doc.state.value, req.reason);
    }
  }

  /**
   A PATCH is accepted exactly when the case is not closed, the gate lets its ops through, the
   patch and the validators give a document, its dates find their first instance, the stages it
   asks for fit the dockets it asks for, each list it targets is there without repeats, and the
   transition it asks for is allowed.
   */
  lemma PatchIsAcceptedExactlyWhen(c: Case, req: Request)
    ensures Patched(c, req).Ok?
            <==> && c.row.state != Closed && PathsAllowed(req.ops, c.row.state)
                 && req.edit(Snapshot(c)).Some?
                 && (var doc := req.edit(Snapshot(c)).value;
                     && RequestedStages(req, doc).Ok?
                     && StagesFit(RequestedStages(req, doc).value, RequestedDockets(c, req, doc))
                     && ListsFit(req, doc) && TransitionFits(c, req, doc))
  {
    if c.row.state != Closed && PathsAllowed(req.ops, c.row.state) && req.edit(Snapshot(c)).Some? {
      var doc := req.edit(Snapshot(c)).value;
      if RequestedStages(req, doc).Ok? && StagesFit(RequestedStages(req, doc).value, RequestedDockets(c, req, doc)) {
        WriteSucceedsExactlyWhen(c, req, doc, RequestedStages(req, doc).value);
      }
    }
  }

  /** The reply to a PATCH that is refused: the first thing that is wrong, in this order. */
  lemma PatchIsRefusedFor(c: Case, req: Request)
    requires Patched(c, req).Err?
    ensures Patched(c, req).error
            == if c.row.state == Closed then NotFound
               else if !PathsAllowed(req.ops, c.row.state) then BlockedPath
               else if req.edit(Snapshot(c)) == None then BadPatch
               else
                 var doc := req.edit(Snapshot(c)).value;
                 match RequestedStages(req, doc)
                 case Err(e) => BadLegacyDate(e)
                 case Ok(stages) =>
                   if !StagesFit(stages, RequestedDockets(c, req, doc)) then BadStages else WriteFault(c, req, doc)
  {
    if c.row.state != Closed && PathsAllowed(req.ops, c.row.state) && req.edit(Snapshot(c)).Some? {
      var doc := req.edit(Snapshot(c)).value;
      if RequestedStages(req, doc).Ok? && StagesFit(RequestedStages(req, doc).value, RequestedDockets(c, req, doc)) {
        WriteIsRefusedFor(c, req, doc, RequestedStages(req, doc).value);
      }
    }
  }

  /** What is wrong with a request whose stages fit: a list, then the transition. */
  function WriteFault(c: Case, req: Request, doc: Doc): Refusal {
    if Touches(req.ops, "/entities") && doc.entities == None then EntitiesRemoved
    else if Touches(req.ops, "/entities") && !DistinctKeys(doc.entities.value) then DuplicateBind
    else if Touches(req.ops, "/evidence") && !DistinctEvidence(doc.evidence) then DuplicateEvidence
    else if Touches(req.ops, "/court_cases") && !Distinct(doc.courtCases) then DuplicateDocket
    else if doc.state.Some? && !Allowed(c.row.state, doc.state.value) then BadTransition(c.row.state)
    else if !PublishableAsAsked(c, req, doc) && doc.state in {Some(InReview), Some(Published)} then Incomplete
    else SlugFrozen
  }

  lemma WriteIsRefusedFor(c: Case, req: Request, doc: Doc, stages: seq<Stage>)
    requires c.row.state != Closed && StagesFit(stages, RequestedDockets(c, req, doc))
    requires Written(c, req, doc, stages).Err?
    ensures Written(c, req, doc, stages).error == WriteFault(c, req, doc)
  {
    var scalars := c.(row := ScalarsWritten(c.row, doc, stages));
    JoinsSucceedExactlyWhen(scalars, req, doc);
    assert PublishableAsAsked(scalars, req, doc) <==> PublishableAsAsked(c, req, doc);
    if ListsFit(req, doc) {
      MoveIsRefusedFor(JoinsWritten(scalars, req, doc).value, c.row.slug, doc.state.value, req.reason);
    }
  }

  lemma MoveIsRefusedFor(c: Case, loadedSlug: string, target: State, reason: string)
    requires StagesFit(c.row.stages, c.courtCases) && c.row.state != Closed && target != c.row.state
    requires Moved(c, loadedSlug, target, reason).Err?
    ensures Moved(c, loadedSlug, target, reason).error
            == if !Allowed(c.row.state, target) then BadTransition(c.row.state)
               else if target in {InReview, Published} && !Publishable(c) then Incomplete
               else SlugFrozen
  {
  }

  /**
   A save of any instance succeeds exactly when its stages fit the dockets that are pending, or
   else stored, and its slug is the loaded one or the case a DRAFT; then the case has the columns
   of the instance, named, with the derived dates and the next version, and the pending joins.
   */
  lemma SaveSucceedsExactlyWhen(c: Case, i: Instance)
    ensures var dockets := if i.courtCases.Some? then i.courtCases.value else c.courtCases;
            var slug := if i.row.slug == "" then i.generated else i.row.slug;
            var r := SavedInstance(c, i);
            i.row.slug == "" || i.row.slug[0] !in BLANKS ==>
              && (r.Ok? <==> && StagesFit(i.row.stages, dockets)
                             && (i.row.state == Draft || i.originalSlug in {"", slug}))
              && (r.Err? ==> r.error == if StagesFit(i.row.stages, dockets) then SlugFrozen else BadStages)
              && (r.Ok? ==>
                    && r.value.row == i.row.(slug := slug, version := c.row.version + 1,
                                             started := Derived(i.row.stages).0, decided := Derived(i.row.stages).1)
                    && (forall iri :: iri in r.value.courtCases <==> iri in dockets)
                    && (forall a :: a in r.value.authors
                          <==> a in (if i.authors.Some? then i.authors.value else c.authors))
                    && r.value == c.(row := r.value.row, courtCases := r.value.courtCases,
                                     authors := r.value.authors))
  {
    if i.courtCases.Some? {
      FirstsKeep(i.courtCases.value);
      assert (set iri | iri in Firsts(i.courtCases.value)) == (set iri | iri in i.courtCases.value);
    }
    if i.authors.Some? {
      FirstsKeep(i.authors.value);
    }
    if i.row.slug != "" && i.row.slug[0] !in BLANKS {
      assert StripLeft(i.row.slug, BLANKS) == i.row.slug;
    }
  }

  /** A delete closes every case that is not closed and whose stages still fit, and logs nothing. */
  lemma DeleteSucceedsExactlyWhen(c: Case)
    ensures var r := Destroyed(c);
            && (r.Ok? <==> c.row.state != Closed && StagesFit(c.row.stages, c.courtCases))
            && (r.Err? ==> r.error == if c.row.state == Closed then NotFound else BadStages)
            && (r.Ok? ==> r.value == c.(row := r.value.row) && r.value.row.state == Closed
                          && r.value.row.version == c.row.version + 1)
  {
  }

  // ----- the slug -----

  /** The ops whose value takes the place of the document they address (RFC 6902, sections 4.1 and 4.3 to 4.5). */
  const PLACING_KINDS: set<string> := {"add", "replace", "move", "copy"}

  /** Some op puts a whole new document in place; a test or a removal of the root does not. */
  predicate WholeDocumentOp(ops: seq<Op>) {
    exists i | 0 <= i < |ops| :: ops[i].path == "" && ops[i].kind in PLACING_KINDS
  }

  /** An edit made of ops none of which reaches the slug leaves it, or drops the key. */
  ghost predicate EditFollowsOps(req: Request) {
    !WholeDocumentOp(req.ops) && !Touches(req.ops, "/slug")
    ==> forall doc | req.edit(doc).Some? :: req.edit(doc).value.slug in {None, doc.slug}
  }

  /** A re-slug that also leaves DRAFT is refused by `save`, whichever move it asks for. */
  lemma ReslugNeverLeavesDraft(c: Case, req: Request)
    requires c.row.state == Draft && c.row.slug != "" && Patched(c, req).Ok?
    requires Patched(c, req).value.row.slug != c.row.slug
    ensures Patched(c, req).value.row.state == Draft
  {
  }

  lemma GateKeepsSlug(ops: seq<Op>, state: State)
    requires PathsAllowed(ops, state) && state != Draft
    ensures !Touches(ops, "/slug")
  {
    forall i | 0 <= i < |ops|
      ensures !IsUnder(ops[i].path, "/slug")
    {
      assert OpAllowed(ops[i], state);
    }
  }

  /** A save of an instance loaded with the present slug, which does not put the case back to DRAFT. */
  predicate SavedOutsideDraft(c: Case, i: Instance) {
    i.originalSlug == c.row.slug != "" && i.row.state != Draft
  }

  /** Outside DRAFT only an op that replaces the document, or a stale or un-publishing save, changes the slug. */
  lemma SlugFixedOutsideDraft(c: Case, a: Action)
    requires c.row.state != Draft
    requires a.Patch? ==> EditFollowsOps(a.req) && !WholeDocumentOp(a.req.ops)
    requires a.Save? ==> SavedOutsideDraft(c, a.instance)
    ensures After(c, a).row.slug == c.row.slug
  {
    match a
    case Patch(req) =>
      if Patched(c, req).Ok? {
        GateKeepsSlug(req.ops, c.row.state);
        var doc := req.edit(Snapshot(c)).value;
        WrittenShape(c, req, doc, RequestedStages(req, doc).value);
      }
    case Approve(intent) =>
      if Applied(c, intent).Ok? {
        IntentsReachOnly(c, intent);
      }
    case Destroy =>
    case Save(_) =>
  }

  const PUBLISHED_CASE := Case(
    Row("a", Published, [], None, None, "", "", "2025-01-01", None, [], map[], 1), [], [], [], [1], [])

  /** An op on the whole document passes the path gate and can rename a published case. */
  lemma WholeDocumentOpRenames(ops: seq<Op>, slug: string)
    requires WholeDocumentOp(ops) && PathsAllowed(ops, Published)
    ensures var req := Request(ops, (doc: Doc) => Some(doc.(slug := Some(slug))), "");
            && EditFollowsOps(req)
            && Patched(PUBLISHED_CASE, req).Ok?
            && Patched(PUBLISHED_CASE, req).value.row.slug == slug
            && Patched(PUBLISHED_CASE, req).value.row.state == Published
  {
    var c := PUBLISHED_CASE;
    var req := Request(ops, (doc: Doc) => Some(doc.(slug := Some(slug))), "");
    var doc := req.edit(Snapshot(c)).value;
    assert doc.stages == [] && Objects(doc.stages) == [];
    assert doc.entities == Some([]) && doc.evidence == [] && doc.courtCases == [];
    assert LegacyWrite([], "start", "") == Ok([]) && LegacyWrite([], "end", "") == Ok([]);
    assert RequestedStages(req, doc) == Ok([]);
    assert StagesFit([], RequestedDockets(c, req, doc));
  }

  /**
   The exact condition on a request: its ops keep every published case's slug, whatever they
   write, just when none of them replaces the whole document or the gate refuses them anyway.
   */
  lemma SlugGateIsExact(ops: seq<Op>)
    ensures (forall c: Case, edit: Doc -> Option<Doc>, reason: string |
               c.row.state == Published && EditFollowsOps(Request(ops, edit, reason)) ::
               After(c, Patch(Request(ops, edit, reason))).row.slug == c.row.slug)
            <==> !WholeDocumentOp(ops) || !PathsAllowed(ops, Published)
  {
    if !WholeDocumentOp(ops) || !PathsAllowed(ops, Published) {
      forall c: Case, edit: Doc -> Option<Doc>, reason: string |
        c.row.state == Published && EditFollowsOps(Request(ops, edit, reason))
        ensures After(c, Patch(Request(ops, edit, reason))).row.slug == c.row.slug
      {
        if !WholeDocumentOp(ops) {
          SlugFixedOutsideDraft(c, Patch(Request(ops, edit, reason)));
        }
      }
    } else {
      WholeDocumentOpRenames(ops, "b");
      var edit := (doc: Doc) => Some(doc.(slug := Some("b")));
      assert After(PUBLISHED_CASE, Patch(Request(ops, edit, ""))).row.slug == "b";
    }
  }

  // ----- the entity list -----

  /** No entity bound twice in one role: the unique constraint of the table. */
  predicate DistinctBinds(binds: seq<Bind>) {
    forall i, j | 0 <= i < j < |binds| ::
      binds[i].nesId != binds[j].nesId || binds[i].role != binds[j].role
  }

  /** Binds as a rewrite leaves them. */
  predicate Normalised(binds: seq<Bind>) {
    && (forall i | 0 <= i < |binds| :: binds[i].ordinal == i)
    && (forall i | 0 <= i < |binds| :: binds[i].outcome.Some? <==> binds[i].role == Accused)
    && DistinctBinds(binds)
  }

  lemma {:induction false} PriorOutcomeIsStored(binds: seq<Bind>, i: nat)
    requires i < |binds| && DistinctBinds(binds)
    ensures PriorOutcome(binds, binds[i].nesId, binds[i].role) == binds[i].outcome
  {
    if i < |binds| - 1 {
      PriorOutcomeIsStored(binds[..|binds| - 1], i);
    }
  }

  lemma {:induction false} NoPriorOutcome(binds: seq<Bind>, nesId: string, role: Role)
    requires forall b | b in binds :: b.nesId != nesId || b.role != role
    ensures PriorOutcome(binds, nesId, role) == None
  {
    if binds != [] {
      assert binds[|binds| - 1] in binds;
      NoPriorOutcome(binds[..|binds| - 1], nesId, role);
    }
  }

  /**
   An accepted rewrite stores the submitted binds in order; a verdict sits exactly on the
   accused; a re-sent accused bind that omits its verdict keeps the stored one, if there is one,
   a new one starts as charged, and a null resets it. The stored list may be any the table permits.
   */
  lemma RewriteStoresTheSubmission(prior: seq<Bind>, items: seq<EntityItem>)
    requires DistinctKeys(items) && DistinctBinds(prior)
    ensures var binds := RewrittenBinds(prior, items);
            && Normalised(binds) && |binds| == |items|
            && (forall i | 0 <= i < |items| ::
                  binds[i].nesId == items[i].nesId && binds[i].role == items[i].role
                  && binds[i].notes == items[i].notes)
            && (forall i | 0 <= i < |items| && items[i].role == Accused && items[i].outcome.Sent? ::
                  binds[i].outcome == Some(items[i].outcome.outcome))
            && (forall i | 0 <= i < |items| && items[i].role == Accused && items[i].outcome.SentNull? ::
                  binds[i].outcome == Some(Charged))
            && (forall i, p | 0 <= i < |items| && 0 <= p < |prior| && items[i].outcome.Omitted?
                              && items[i].role == Accused == prior[p].role && prior[p].nesId == items[i].nesId ::
                  binds[i].outcome == Some(Keep(prior[p].outcome, Charged)))
            && (forall i | 0 <= i < |items| && items[i].outcome.Omitted? && items[i].role == Accused
                           && (forall b | b in prior :: b.nesId != items[i].nesId || b.role != Accused) ::
                  binds[i].outcome == Some(Charged))
  {
    var binds := RewrittenBinds(prior, items);
    forall i, j | 0 <= i < j < |items|
      ensures binds[i].nesId != binds[j].nesId || binds[i].role != binds[j].role
    {
      assert !SameKey(items[i], items[j]);
    }
    forall i, p | 0 <= i < |items| && 0 <= p < |prior| && items[i].outcome.Omitted?
                  && items[i].role == Accused == prior[p].role && prior[p].nesId == items[i].nesId
      ensures binds[i].outcome == Some(Keep(prior[p].outcome, Charged))
    {
      PriorOutcomeIsStored(prior, p);
    }
    forall i | 0 <= i < |items| && items[i].outcome.Omitted? && items[i].role == Accused
               && (forall b | b in prior :: b.nesId != items[i].nesId || b.role != Accused)
      ensures binds[i].outcome == Some(Charged)
    {
      NoPriorOutcome(prior, items[i].nesId, Accused);
    }
  }

  /** Sending the snapshot's own list back changes nothing. */
  lemma RewriteWithOwnSnapshot(binds: seq<Bind>)
    requires Normalised(binds)
    ensures DistinctKeys(EntityItems(binds)) && RewrittenBinds(binds, EntityItems(binds)) == binds
  {
    var items := EntityItems(binds);
    forall i | 0 <= i < |binds|
      ensures RewrittenBinds(binds, items)[i] == binds[i]
    {
    }
  }

  // ----- the joins over a run -----

  /** Evidence in display order: rising ordinals, no material twice. */
  predicate EvidenceOrdered(evidence: seq<Evidence>) {
    forall i, j | 0 <= i < j < |evidence| ::
      evidence[i].ordinal < evidence[j].ordinal && evidence[i].iri != evidence[j].iri
  }

  predicate JoinsOrdered(c: Case) {
    Normalised(c.binds) && EvidenceOrdered(c.evidence) && Distinct(c.courtCases) && Distinct(c.authors)
  }

  lemma {:induction false} MaxOrdinalBounds(evidence: seq<Evidence>)
    ensures forall i | 0 <= i < |evidence| :: evidence[i].ordinal <= MaxOrdinal(evidence)
  {
    if evidence != [] {
      MaxOrdinalBounds(evidence[..|evidence| - 1]);
    }
  }

  lemma LinkedKeepsOrder(c: Case, material: string, relation: string)
    requires EvidenceOrdered(c.evidence)
    ensures EvidenceOrdered(Linked(c, material, relation).evidence)
    ensures c.evidence <= Linked(c, material, relation).evidence
    ensures Cites(Linked(c, material, relation).evidence, material)
  {
    MaxOrdinalBounds(c.evidence);
    var after := Linked(c, material, relation).evidence;
    if !Cites(c.evidence, material) {
      assert after[|c.evidence|].iri == material;
      assert forall i | 0 <= i < |c.evidence| :: c.evidence[i].iri != material;
    }
  }

  lemma {:induction false} OutcomesWrittenNormalised(binds: seq<Bind>, outcomes: seq<(string, Outcome)>)
    requires Normalised(binds) && FirstFault(binds, outcomes) == None
    ensures Normalised(OutcomesWritten(binds, outcomes))
  {
    if outcomes != [] {
      OutcomesWrittenNormalised(binds, outcomes[..|outcomes| - 1]);
    }
  }

  lemma JoinsWrittenOrdered(c: Case, req: Request, doc: Doc)
    requires JoinsOrdered(c) && JoinsWritten(c, req, doc).Ok?
    ensures JoinsOrdered(JoinsWritten(c, req, doc).value)
  {
    FirstsKeep(doc.authors);
    if Touches(req.ops, "/entities") {
      RewriteStoresTheSubmission(c.binds, doc.entities.value);
    }
  }

  lemma SavedJoinsOrdered(c: Case, i: Instance)
    requires JoinsOrdered(c)
    ensures JoinsOrdered(After(c, Save(i)))
  {
    if i.courtCases.Some? {
      FirstsKeep(i.courtCases.value);
    }
    if i.authors.Some? {
      FirstsKeep(i.authors.value);
    }
  }

  lemma PatchedJoinsOrdered(c: Case, req: Request)
    requires JoinsOrdered(c) && Patched(c, req).Ok?
    ensures JoinsOrdered(Patched(c, req).value)
  {
    var doc := req.edit(Snapshot(c)).value;
    var stages := RequestedStages(req, doc).value;
    var scalars := c.(row := ScalarsWritten(c.row, doc, stages));
    WrittenShape(c, req, doc, stages);
    JoinsWrittenOrdered(scalars, req, doc);
  }

  lemma AttemptKeepsJoinsOrdered(c: Case, a: Action)
    requires JoinsOrdered(c)
    ensures JoinsOrdered(After(c, a))
  {
    if a.Save? {
      SavedJoinsOrdered(c, a.instance);
    } else if a.Patch? && Patched(c, a.req).Ok? {
      PatchedJoinsOrdered(c, a.req);
    } else if a.Approve? && Applied(c, a.intent).Ok? {
      IntentsReachOnly(c, a.intent);
      match a.intent
      case LinkMaterial(material, _, relation) => LinkedKeepsOrder(c, material, relation);
      case SetOutcomes(outcomes) => OutcomesWrittenNormalised(c.binds, outcomes);
      case _ =>
    }
  }

  /** Every run keeps the four joins free of duplicates and in their display order. */
  lemma {:induction false} JoinsStayOrdered(c: Case, actions: seq<Action>)
    requires JoinsOrdered(c)
    ensures JoinsOrdered(Run(c, actions))
  {
    if actions != [] {
      JoinsStayOrdered(c, actions[..|actions| - 1]);
      AttemptKeepsJoinsOrdered(Run(c, actions[..|actions| - 1]), actions[|actions| - 1]);
    }
  }

  lemma {:induction false} CreatedBindsNormalised(binds: seq<Bind>, nesIds: seq<string>, role: Role)
    requires Normalised(binds)
    ensures Normalised(CreatedBinds(binds, nesIds, role))
    ensures forall i | 0 <= i < |nesIds| :: IsBound(CreatedBinds(binds, nesIds, role), nesIds[i], role)
    ensures binds <= CreatedBinds(binds, nesIds, role)
    decreases nesIds
  {
    if nesIds != [] {
      if IsBound(binds, nesIds[0], role) {
        CreatedBindsNormalised(binds, nesIds[1..], role);
        BoundStays(binds, CreatedBinds(binds, nesIds, role), nesIds[0], role);
      } else {
        var next := binds + [Bind(nesIds[0], role, if role == Accused then Some(Charged) else None, "", |binds|)];
        assert Normalised(next);
        CreatedBindsNormalised(next, nesIds[1..], role);
        assert next[|binds|].nesId == nesIds[0] && next[|binds|].role == role;
        BoundStays(next, CreatedBinds(binds, nesIds, role), nesIds[0], role);
      }
      forall i | 0 <= i < |nesIds|
        ensures IsBound(CreatedBinds(binds, nesIds, role), nesIds[i], role)
      {
        assert i > 0 ==> nesIds[i] == nesIds[1..][i - 1];
      }
    }
  }

  lemma BoundStays(before: seq<Bind>, after: seq<Bind>, nesId: string, role: Role)
    requires before <= after && IsBound(before, nesId, role)
    ensures IsBound(after, nesId, role)
  {
    var i :| 0 <= i < |before| && before[i].nesId == nesId && before[i].role == role;
    assert after[i] == before[i];
  }

  /** What the loop adds: binds of the submitted ids in the role, an accused charged, none with a note. */
  predicate AddedBinds(before: seq<Bind>, after: seq<Bind>, nesIds: seq<string>, role: Role) {
    && before <= after
    && forall i | |before| <= i < |after| ::
         && after[i].nesId in nesIds && after[i].role == role && after[i].notes == ""
         && after[i].outcome == if role == Accused then Some(Charged) else None
  }

  lemma {:induction false} CreatedBindsAreSubmitted(binds: seq<Bind>, nesIds: seq<string>, role: Role)
    ensures AddedBinds(binds, CreatedBinds(binds, nesIds, role), nesIds, role)
    decreases nesIds
  {
    if nesIds != [] {
      var next :=
        if IsBound(binds, nesIds[0], role) then binds
        else binds + [Bind(nesIds[0], role, if role == Accused then Some(Charged) else None, "", |binds|)];
      CreatedBindsAreSubmitted(next, nesIds[1..], role);
    }
  }

  /** A creation is accepted exactly as a DRAFT whose stages fit its dockets and whose evidence repeats nothing. */
  lemma CreationIsAcceptedExactlyWhen(s: Creation)
    ensures Created(s).Ok? <==> && s.state == Draft && StagesFit(CreatedStages(s), s.courtCases)
                                && DistinctEvidence(s.evidence)
    ensures Created(s).Err? ==>
              Created(s).error == if s.state != Draft then NotADraft
                                  else if !StagesFit(CreatedStages(s), s.courtCases) then BadStages
                                  else DuplicateEvidence
  {
    FirstsKeep(s.courtCases);
    assert (set iri | iri in Firsts(s.courtCases)) == (set iri | iri in s.courtCases);
  }

  /** An accepted creation stores what was sent: columns, stages, evidence in order, authors, and binds as charged. */
  lemma CreationIsReadBack(s: Creation)
    requires Created(s).Ok?
    ensures var c, shown := Created(s).value, Snapshot(Created(s).value);
            && (s.slug != "" && s.slug[0] !in BLANKS ==> c.row.slug == s.slug)
            && (s.slug == "" ==> c.row.slug == s.generated)
            && c.row.state == Draft && c.row.version == 1 && c.log == []
            && shown.legacyStart == Some(s.legacyStart) && shown.legacyEnd == Some(s.legacyEnd)
            && shown.publishDate == Some(s.publishDate) && shown.statusOverride == Some(s.statusOverride)
            && shown.timeline == Some(s.timeline) && shown.fields == s.fields
            && (s.dates.Some? ==> shown.stages == s.dates.value)
            && (s.dates == None && s.legacyStart == s.legacyEnd == "" ==> shown.stages == [])
            && shown.evidence == s.evidence
            && (forall a :: a in shown.authors <==> a in s.authors)
            && (forall b | b in c.binds ::
                  || (b.role == Accused && b.nesId in s.accused && b.outcome == Some(Charged) && b.notes == "")
                  || (b.role == Related && b.nesId in s.related && b.outcome == None && b.notes == ""))
  {
    FirstsKeep(s.authors);
    var accused := CreatedBinds([], s.accused, Accused);
    CreatedBindsAreSubmitted([], s.accused, Accused);
    CreatedBindsAreSubmitted(accused, s.related, Related);
    assert EvidenceItems(RewrittenEvidence(s.evidence)) == s.evidence;
    if s.slug != "" && s.slug[0] !in BLANKS {
      assert StripLeft(s.slug, BLANKS) == s.slug;
    }
  }

  /** A created case binds every accused and related id, its joins are in order and without repeats. */
  lemma CreatedIsOrdered(s: Creation)
    requires Created(s).Ok?
    ensures var c := Created(s).value;
            && JoinsOrdered(c)
            && (forall i | 0 <= i < |s.accused| :: IsBound(c.binds, s.accused[i], Accused))
            && (forall i | 0 <= i < |s.related| :: IsBound(c.binds, s.related[i], Related))
            && (forall iri :: iri in c.courtCases <==> iri in s.courtCases)
  {
    FirstsKeep(s.authors);
    FirstsKeep(s.courtCases);
    var accused := CreatedBinds([], s.accused, Accused);
    CreatedBindsNormalised([], s.accused, Accused);
    CreatedBindsNormalised(accused, s.related, Related);
    forall i | 0 <= i < |s.accused|
      ensures IsBound(Created(s).value.binds, s.accused[i], Accused)
    {
      BoundStays(accused, CreatedBinds(accused, s.related, Related), s.accused[i], Accused);
    }
  }
}
