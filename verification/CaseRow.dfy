/**
 The writes of cases/api_views.py, cases/models.py and case_proposals/apply.py on the stored
 fields of one case, each proved against its specification in Cases.dfy.

 A rolled-back transaction is modelled as the code leaves it: the fields are those the
 transaction started from.
 */
module CaseRow {
  import opened Common
  import opened Stages
  import opened Cases

  /** The columns no workflow or stage rule writes; they are saved together. */
  datatype Columns = Columns(
    legacyStart: string,
    legacyEnd: string,
    publishDate: string,
    statusOverride: Option<Override>,
    fields: map<string, string>)

  class CaseInstance {
    var slug: string
    var state: State
    var stages: seq<Stage>
    var started: Option<int>
    var decided: Option<int>
    var columns: Columns
    var timeline: seq<string>
    var version: nat
    var binds: seq<Bind>
    var evidence: seq<Evidence>
    var courtCases: seq<string>
    var authors: seq<nat>
    var log: seq<StateChange>
    /** The slug when this instance was loaded; a refresh of the columns does not touch it. */
    var originalSlug: string
    /** What was assigned to `court_cases` and to `author_ids` since; None: nothing. */
    var pendingCourtCases: Option<seq<string>>
    var pendingAuthors: Option<seq<nat>>

    function RowValue(): Row
      reads this
    {
      Row(slug, state, stages, started, decided, columns.legacyStart, columns.legacyEnd, columns.publishDate,
          columns.statusOverride, timeline, columns.fields, version)
    }

    /** The stored case. */
    function Value(): Case
      reads this
    {
      Case(RowValue(), binds, evidence, courtCases, authors, log)
    }

    /** The instance as `save` would find it. */
    function InMemory(generated: string): Instance
      reads this
    {
      Instance(RowValue(), originalSlug, pendingCourtCases, pendingAuthors, generated)
    }

    predicate NothingPending()
      reads this
    {
      pendingCourtCases == None && pendingAuthors == None
    }

    /** An instance freshly read from the database. */
    constructor (c: Case)
      ensures Value() == c && originalSlug == c.row.slug && NothingPending()
    {
      slug, state, stages := c.row.slug, c.row.state, c.row.stages;
      started, decided := c.row.started, c.row.decided;
      columns := Columns(c.row.legacyStart, c.row.legacyEnd, c.row.publishDate, c.row.statusOverride, c.row.fields);
      timeline, version := c.row.timeline, c.row.version;
      binds, evidence, courtCases, authors, log := c.binds, c.evidence, c.courtCases, c.authors, c.log;
      originalSlug := c.row.slug;
      pendingCourtCases, pendingAuthors := None, None;
    }

    /** One UPDATE of the columns. */
    method UpdateRow(row: Row)
      modifies `slug, `state, `stages, `started, `decided, `columns, `timeline, `version
      ensures Value() == old(Value()).(row := row)
    {
      slug, state, stages := row.slug, row.state, row.stages;
      started, decided := row.started, row.decided;
      columns := Columns(row.legacyStart, row.legacyEnd, row.publishDate, row.statusOverride, row.fields);
      timeline, version := row.timeline, row.version;
    }

    /** `transaction.set_rollback`: the stored values before the transaction come back. */
    method Rollback(before: Case)
      modifies `slug, `state, `stages, `started, `decided, `columns, `timeline, `version
      modifies `binds, `evidence, `courtCases, `authors, `log
      ensures Value() == before
    {
      UpdateRow(before.row);
      binds, evidence, courtCases := before.binds, before.evidence, before.courtCases;
      authors, log := before.authors, before.log;
    }

    // ----- the joins -----

    /** `_rewrite_entity_binds`. On a duplicate the old list is back in place. */
    method RewriteEntityBinds(items: seq<EntityItem>) returns (ok: bool)
      modifies this`binds
      ensures ok <==> DistinctKeys(items)
      ensures binds == if ok then RewrittenBinds(old(binds), items) else old(binds)
    {
      var prior := binds;
      binds := [];
      var seen: set<(string, Role)> := {};
      for ordinal := 0 to |items|
        invariant DistinctKeys(items[..ordinal])
        invariant forall key :: key in seen <==>
          exists i | 0 <= i < ordinal :: key == (items[i].nesId, items[i].role)
        invariant binds == RewrittenBinds(prior, items[..ordinal])
      {
        var item := items[ordinal];
        var key := (item.nesId, item.role);
        if key in seen {
          var i :| 0 <= i < ordinal && key == (items[i].nesId, items[i].role);
          assert SameKey(items[i], items[ordinal]);
          binds := prior;
          return false;
        }
        seen := seen + {key};
        var outcome: Option<Outcome> := None;
        if item.role == Accused {
          match item.outcome {
            case Sent(o) => outcome := Some(o);
            case SentNull => outcome := Some(Charged);
            case Omitted =>
              var kept := PriorOutcome(prior, item.nesId, item.role);
              outcome := if kept.Some? then kept else Some(Charged);
          }
        }
        binds := binds + [Bind(item.nesId, item.role, outcome, item.notes, ordinal)];
      }
      assert items[..|items|] == items;
      ok := true;
    }

    /** `_write_material_references`. A repeated material breaks the table's unique constraint. */
    method WriteMaterialReferences(items: seq<EvidenceItem>) returns (ok: bool)
      modifies this`evidence
      ensures ok <==> DistinctEvidence(items)
      ensures ok ==> evidence == RewrittenEvidence(items)
    {
      evidence := [];
      for ordinal := 0 to |items|
        invariant DistinctEvidence(items[..ordinal])
        invariant evidence == RewrittenEvidence(items[..ordinal])
      {
        if Cites(evidence, items[ordinal].iri) {
          var i :| 0 <= i < |evidence| && evidence[i].iri == items[ordinal].iri;
          assert items[i].iri == items[ordinal].iri;
          return false;
        }
        forall i | 0 <= i < ordinal
          ensures items[i].iri != items[ordinal].iri
        {
          assert evidence[i].iri == items[i].iri;
        }
        evidence := evidence + [Evidence(items[ordinal].iri, items[ordinal].details, ordinal)];
      }
      assert items[..|items|] == items;
      ok := true;
    }

    /** `_sync_courtcase_references`: an unchanged list is left alone, rows and all. */
    method SyncCourtCases(desired: seq<string>) returns (ok: bool)
      modifies this`courtCases
      ensures ok <==> Distinct(desired) || desired == old(courtCases)
      ensures ok ==> courtCases == desired
    {
      if desired == courtCases {
        return true;
      }
      courtCases := [];
      for ordinal := 0 to |desired|
        invariant Distinct(desired[..ordinal]) && courtCases == desired[..ordinal]
      {
        if desired[ordinal] in courtCases {
          return false;
        }
        courtCases := courtCases + [desired[ordinal]];
      }
      assert desired[..|desired|] == desired;
      ok := true;
    }

    /** `_sync_author_credits`: a repeated author is dropped. */
    method SyncAuthors(desired: seq<nat>)
      modifies this`authors
      ensures authors == Firsts(desired)
    {
      var normalized: seq<nat> := [];
      for i := 0 to |desired|
        invariant normalized == Firsts(desired[..i])
      {
        assert desired[..i + 1][..i] == desired[..i];
        FirstsKeep(desired[..i]);
        if desired[i] !in normalized {
          normalized := normalized + [desired[i]];
        }
      }
      assert desired[..|desired|] == desired;
      authors := normalized;
    }

    /** The `get_or_create` loops of a creation, which keep one running ordinal. */
    method CreateBinds(nesIds: seq<string>, role: Role)
      modifies this`binds
      ensures binds == CreatedBinds(old(binds), nesIds, role)
    {
      for i := 0 to |nesIds|
        invariant CreatedBinds(binds, nesIds[i..], role) == CreatedBinds(old(binds), nesIds, role)
      {
        assert nesIds[i..][0] == nesIds[i] && nesIds[i..][1..] == nesIds[i + 1..];
        if !IsBound(binds, nesIds[i], role) {
          var outcome: Option<Outcome> := if role == Accused then Some(Charged) else None;
          binds := binds + [Bind(nesIds[i], role, outcome, "", |binds|)];
        }
      }
    }

    /** The joins of a creation, written once its row is there. */
    method CreateJoins(s: Creation) returns (ok: bool)
      modifies this`binds, this`evidence, this`authors
      ensures ok <==> DistinctEvidence(s.evidence)
      ensures ok ==> Value() == old(Value()).(
                       binds := CreatedBinds(CreatedBinds(old(binds), s.accused, Accused), s.related, Related),
                       evidence := RewrittenEvidence(s.evidence),
                       authors := Firsts(s.authors))
    {
      CreateBinds(s.accused, Accused);
      CreateBinds(s.related, Related);
      ok := WriteMaterialReferences(s.evidence);
      if ok {
        SyncAuthors(s.authors);
      }
    }

    // ----- save and the transitions -----

    /** The `court_cases` setter: the references to write at the next save, first mentions only. */
    method AssignCourtCases(value: seq<string>)
      modifies this`pendingCourtCases
      ensures pendingCourtCases == Some(Firsts(value)) && Distinct(pendingCourtCases.value)
    {
      var refs: seq<string> := [];
      for i := 0 to |value|
        invariant refs == Firsts(value[..i])
      {
        assert value[..i + 1][..i] == value[..i];
        FirstsKeep(value[..i]);
        if value[i] !in refs {
          refs := refs + [value[i]];
        }
      }
      assert value[..|value|] == value;
      FirstsKeep(value);
      pendingCourtCases := Some(refs);
    }

    /** The `court_cases` property: the pending list, or the join. */
    function CourtCases(): seq<string>
      reads this
    {
      Keep(pendingCourtCases, courtCases)
    }

    /** `_validate_and_derive_stages`. */
    method ValidateAndDeriveStages() returns (valid: bool)
      modifies `started, `decided
      ensures valid <==> StagesFit(stages, CourtCases())
      ensures RowValue() == if valid then WithDerivedDates(old(RowValue()), stages) else old(RowValue())
    {
      var checked := ValidateStages(stages, Some(set iri | iri in CourtCases()));
      valid := checked.Ok?;
      if valid {
        started, decided := DerivedProceedingDates(stages);
      }
    }

    /** The row half of `Case.save`: the checks, the two derived dates, and the UPDATE. */
    method SaveRow() returns (r: Result<(), Refusal>)
      modifies `started, `decided, `version, `originalSlug
      ensures match Saved(old(Value()).(courtCases := old(CourtCases())), old(originalSlug))
              case Ok(saved) => r.Ok? && Value() == saved.(courtCases := old(courtCases)) && originalSlug == slug
              case Err(e) => r == Err(e) && originalSlug == old(originalSlug)
    {
      var valid := ValidateAndDeriveStages();
      if !valid {
        return Err(BadStages);
      }
      if originalSlug != "" && originalSlug != slug && state != Draft {
        return Err(SlugFrozen);
      }
      assert RowValue() == WithDerivedDates(old(RowValue()), stages);
      version := version + 1;
      originalSlug := slug;
      return Ok(());
    }

    /** An instance without a slug gets one. */
    method NameSlug(generated: string)
      modifies `slug
      ensures Value() == old(Value()).(row := old(RowValue()).(slug := Named(old(slug), generated)))
    {
      slug := Named(slug, generated);
    }

    /** The join half: what is pending is written and no longer pending. */
    method SyncPending()
      requires pendingCourtCases.Some? ==> Distinct(pendingCourtCases.value)
      modifies `courtCases, `authors, `pendingCourtCases, `pendingAuthors
      ensures Value() == old(Value()).(courtCases := Pending(old(pendingCourtCases), old(courtCases)),
                                       authors := Pending(old(pendingAuthors), old(authors)))
      ensures NothingPending()
    {
      if pendingCourtCases.Some? {
        FirstsOfDistinct(pendingCourtCases.value);
        var synced := SyncCourtCases(pendingCourtCases.value);
        assert synced;
        pendingCourtCases := None;
      }
      if pendingAuthors.Some? {
        SyncAuthors(pendingAuthors.value);
        pendingAuthors := None;
      }
    }

    /** `Case.save`: a slug if there is none, the row, then the two pending joins. */
    method Save(generated: string) returns (r: Result<(), Refusal>)
      requires pendingCourtCases.Some? ==> Distinct(pendingCourtCases.value)
      modifies this
      ensures match SavedInstance(old(Value()), old(InMemory(generated)))
              case Ok(saved) => r.Ok? && Value() == saved && originalSlug == slug && NothingPending()
              case Err(e) => r == Err(e) && originalSlug == old(originalSlug)
    {
      SaveInSteps(Value(), InMemory(generated));
      NameSlug(generated);
      r := SaveRow();
      if r.Ok? {
        SyncPending();
      }
    }

    /** `validate`: the gates of the public states. */
    method Validate() returns (ok: bool)
      ensures ok <==> state in {InReview, Published} ==> Publishable(Value())
    {
      if state != InReview && state != Published {
        return true;
      }
      var hasRequiredEntity := exists i | 0 <= i < |binds| :: binds[i].role != Location;
      assert hasRequiredEntity <==> exists b :: b in binds && b.role != Location;
      ok := hasRequiredEntity && authors != [] && columns.publishDate != "";
    }

    /**
     `submit`, `publish`, `delete` and the un-publish branch, by the state they move to. The slug
     is there and nothing is pending, so saving is saving the row.
     */
    method Move(target: State) returns (r: Result<(), Refusal>)
      requires NothingPending()
      modifies `state, `started, `decided, `version, `originalSlug
      ensures match Moved(old(Value()), old(originalSlug), target, "")
              case Ok(moved) => r.Ok? && Value() == moved.(log := old(log))
              case Err(e) => r == Err(e)
    {
      if target == InReview && state != Draft {
        return Err(BadTransition(state));
      }
      if target == Published && state != InReview && state != Draft {
        return Err(BadTransition(state));
      }
      state := target;
      var valid := Validate();
      if !valid {
        return Err(Incomplete);
      }
      assert Value().(courtCases := CourtCases()) == old(Value()).(row := old(RowValue()).(state := target));
      r := SaveRow();
    }

    /** `_apply_state_transition`: the move and its log row, or a refusal for the caller to roll back. */
    method ApplyStateTransition(target: State, reason: string) returns (r: Result<(), Refusal>)
      requires NothingPending()
      modifies `state, `started, `decided, `version, `originalSlug, `log
      ensures match Moved(old(Value()), old(originalSlug), target, reason)
              case Ok(moved) => r.Ok? && Value() == moved
              case Err(e) => r == Err(e)
    {
      var fromState := state;
      r := Move(target);
      if r.Ok? {
        log := log + [StateChange(fromState, state, reason)];
      }
    }

    // ----- PATCH and DELETE -----

    /** The deprecated dates transformed onto the stage list. */
    method LegacyDates(req: Request, doc: Doc) returns (r: Result<seq<Stage>, LegacyError>)
      ensures r == RequestedStages(req, doc)
    {
      r := Ok(doc.stages);
      if Touches(req.ops, "/case_start_date") {
        r := ApplyLegacyDate(doc.stages, "start", Keep(doc.legacyStart, ""));
        if r.Err? {
          return;
        }
      }
      if Touches(req.ops, "/case_end_date") {
        r := ApplyLegacyDate(r.value, "end", Keep(doc.legacyEnd, ""));
      }
    }

    /** The bulk UPDATE of the scalar columns, derived dates included. */
    method UpdateScalars(doc: Doc, newStages: seq<Stage>)
      modifies `slug, `state, `stages, `started, `decided, `columns, `timeline, `version
      ensures Value() == old(Value()).(row := ScalarsWritten(old(RowValue()), doc, newStages))
    {
      var start, end := DerivedProceedingDates(newStages);
      UpdateRow(Row(
        Keep(doc.slug, slug), state, newStages, start, end,
        Keep(doc.legacyStart, columns.legacyStart),
        Keep(doc.legacyEnd, columns.legacyEnd),
        Keep(doc.publishDate, columns.publishDate),
        Keep(doc.statusOverride, columns.statusOverride),
        Keep(doc.timeline, timeline),
        columns.fields + doc.fields,
        version + 1));
    }

    /** `_write_joins`: each join only when an op targets it. */
    method WriteJoins(req: Request, doc: Doc) returns (r: Result<(), Refusal>)
      requires Distinct(courtCases)
      modifies this`binds, this`evidence, this`courtCases, this`authors
      ensures match JoinsWritten(old(Value()), req, doc)
              case Ok(written) => r.Ok? && Value() == written
              case Err(e) => r == Err(e)
    {
      if Touches(req.ops, "/entities") {
        if doc.entities.None? {
          return Err(EntitiesRemoved);
        }
        var ok := RewriteEntityBinds(doc.entities.value);
        if !ok {
          return Err(DuplicateBind);
        }
      }
      if Touches(req.ops, "/evidence") {
        var ok := WriteMaterialReferences(doc.evidence);
        if !ok {
          return Err(DuplicateEvidence);
        }
      }
      if Touches(req.ops, "/court_cases") {
        var ok := SyncCourtCases(doc.courtCases);
        if !ok {
          return Err(DuplicateDocket);
        }
      }
      if Touches(req.ops, "/authors") {
        SyncAuthors(doc.authors);
      }
      return Ok(());
    }

    /** The transition a document asks for; none when it carries no state or the present one. */
    method TransitionIfAsked(target: Option<State>, reason: string) returns (r: Result<(), Refusal>)
      requires NothingPending()
      modifies `state, `started, `decided, `version, `originalSlug, `log
      ensures target.None? || target.value == old(state) ==> r.Ok? && Value() == old(Value())
      ensures target.Some? && target.value != old(state) ==>
                match Moved(old(Value()), old(originalSlug), target.value, reason)
                case Ok(moved) => r.Ok? && Value() == moved
                case Err(e) => r == Err(e)
    {
      r := Ok(());
      if target.Some? && target.value != state {
        r := ApplyStateTransition(target.value, reason);
      }
    }

    /** The writes of the transaction: scalars, joins, and the transition if one is asked for. */
    method WriteRequested(req: Request, doc: Doc, requested: seq<Stage>) returns (r: Result<(), Refusal>)
      requires Distinct(courtCases) && originalSlug == slug && NothingPending()
      modifies this
      ensures match Written(old(Value()), req, doc, requested)
              case Ok(c) => r.Ok? && Value() == c
              case Err(e) => r == Err(e)
    {
      UpdateScalars(doc, requested);
      r := WriteJoins(req, doc);
      if r.Ok? {
        r := TransitionIfAsked(doc.state, req.reason);
      }
    }

    /** The transaction of `partial_update`, on an instance loaded under the row lock. */
    method CommitPatch(req: Request, doc: Doc) returns (r: Result<(), Refusal>)
      requires Distinct(courtCases) && originalSlug == slug && NothingPending()
      modifies this
      ensures match Committed(old(Value()), req, doc)
              case Ok(c) => r.Ok? && Value() == c
              case Err(e) => r == Err(e) && Value() == old(Value())
    {
      var before := Value();
      var requested := LegacyDates(req, doc);
      if requested.Err? {
        return Err(BadLegacyDate(requested.error));
      }
      var desired := if Touches(req.ops, "/court_cases") then doc.courtCases else courtCases;
      var checked := ValidateStages(requested.value, Some(set iri | iri in desired));
      if checked.Err? {
        return Err(BadStages);
      }
      r := WriteRequested(req, doc, requested.value);
      if r.Err? {
        Rollback(before);
      }
    }

    /** `destroy`: `Case.delete` on the loaded instance. */
    method SoftDelete() returns (r: Result<(), Refusal>)
      requires originalSlug == slug && NothingPending()
      modifies this
      ensures match Destroyed(old(Value()))
              case Ok(c) => r.Ok? && Value() == c
              case Err(e) => r == Err(e) && Value() == old(Value())
    {
      if state == Closed {
        return Err(NotFound);
      }
      var before := Value();
      state := Closed;
      assert Value().(courtCases := CourtCases()) == before.(row := before.row.(state := Closed));
      r := SaveRow();
      if r.Err? {
        Rollback(before);
      }
    }

    /** `_reject_blocked_paths`. */
    method RejectBlockedPaths(ops: seq<Op>) returns (rejected: bool)
      ensures rejected <==> !PathsAllowed(ops, state)
    {
      for i := 0 to |ops|
        invariant PathsAllowed(ops[..i], state)
      {
        if !OpAllowed(ops[i], state) {
          return true;
        }
      }
      rejected := false;
    }

    /** `partial_update` with nothing else running: gates, patch, then the transaction. */
    method PartialUpdate(req: Request) returns (r: Result<(), Refusal>)
      requires Distinct(courtCases) && NothingPending()
      modifies this
      ensures match Patched(old(Value()), req)
              case Ok(c) => r.Ok? && Value() == c
              case Err(e) => r == Err(e) && Value() == old(Value())
    {
      if state == Closed {
        return Err(NotFound);
      }
      var rejected := RejectBlockedPaths(req.ops);
      if rejected {
        return Err(BlockedPath);
      }
      var patched := req.edit(Snapshot(Value()));
      if patched.None? {
        return Err(BadPatch);
      }
      originalSlug := slug;
      r := CommitPatch(req, patched.value);
    }

    // ----- approved intents -----

    /** `_append_timeline_entry`. */
    method AppendTimelineEntry(entry: Option<string>) returns (r: Result<(), Refusal>)
      modifies this`timeline, this`version
      ensures match Applied(old(Value()), AppendTimeline(entry))
              case Ok(c) => r.Ok? && Value() == c
              case Err(e) => r == Err(e) && Value() == old(Value())
    {
      if entry.None? {
        return Err(BadIntent);
      }
      timeline := timeline + [entry.value];
      version := version + 1;
      return Ok(());
    }

    /** `_link_material`. */
    method LinkMaterialReference(material: string, wellFormed: bool, relation: string)
      returns (r: Result<(), Refusal>)
      modifies this`evidence, this`version
      ensures match Applied(old(Value()), LinkMaterial(material, wellFormed, relation))
              case Ok(c) => r.Ok? && Value() == c
              case Err(e) => r == Err(e) && Value() == old(Value())
    {
      if material == "" || !wellFormed {
        return Err(BadIntent);
      }
      var ordinal := MaxOrdinal(evidence) + 1;
      if !Cites(evidence, material) {
        var details := if relation != "" then "relation: " + relation else "";
        evidence := evidence + [Evidence(material, details, ordinal)];
        version := version + 1;
      }
      return Ok(());
    }

    /** `_raw_patch`: the allow-list first, then the patch on the allowed view. */
    method RawPatchFields(paths: seq<string>, edit: RawView -> Option<RawView>) returns (r: Result<(), Refusal>)
      modifies this`timeline, this`columns, this`version
      ensures match Applied(old(Value()), RawPatch(paths, edit))
              case Ok(c) => r.Ok? && Value() == c
              case Err(e) => r == Err(e) && Value() == old(Value())
    {
      for i := 0 to |paths|
        invariant forall k | 0 <= k < i :: RawPathAllowed(paths[k])
      {
        if !RawPathAllowed(paths[i]) {
          return Err(BadIntent);
        }
      }
      var patched := edit(RawViewOf(RowValue()));
      if patched.None? {
        return Err(BadIntent);
      }
      var known := map f | f in patched.value.fields && f in RAW_PATCH_FIELDS :: patched.value.fields[f];
      if patched.value.timeline.None? && known == map[] {
        return Ok(());
      }
      timeline := Keep(patched.value.timeline, timeline);
      columns := columns.(fields := columns.fields + known);
      version := version + 1;
      return Ok(());
    }

    /** The resolving half of `_set_entity_outcome`: nothing is written. */
    method ResolveOutcomes(outcomes: seq<(string, Outcome)>) returns (fault: Option<Refusal>)
      ensures fault == FirstFault(binds, outcomes)
    {
      for k := 0 to |outcomes|
        invariant FirstFault(binds, outcomes[..k]) == None
      {
        assert outcomes[..k + 1][..k] == outcomes[..k];
        fault := EntryFault(binds, outcomes[k]);
        if fault.Some? {
          FaultStays(binds, outcomes, k);
          return;
        }
      }
      assert outcomes[..|outcomes|] == outcomes;
      fault := None;
    }

    /** The writing half: each resolved bind takes its verdict, in order. */
    method WriteOutcomes(outcomes: seq<(string, Outcome)>) returns (changed: bool)
      requires FirstFault(binds, outcomes) == None
      modifies this`binds
      ensures binds == OutcomesWritten(old(binds), outcomes)
      ensures changed <==> AnyChange(old(binds), outcomes)
    {
      ghost var before := binds;
      changed := false;
      for k := 0 to |outcomes|
        invariant |binds| == |before| && binds == OutcomesWritten(before, outcomes[..k])
        invariant changed <==> AnyChange(before, outcomes[..k])
      {
        WriteSnoc(before, binds, outcomes, k);
        AnyChangeSnoc(before, outcomes, k);
        var at := BindOf(binds, outcomes[k].0).value;
        if binds[at].outcome != Some(outcomes[k].1) {
          binds := binds[at := binds[at].(outcome := Some(outcomes[k].1))];
          changed := true;
        }
      }
      assert outcomes[..|outcomes|] == outcomes;
    }

    /** `_set_entity_outcome`: every entry is resolved before any is written. */
    method SetEntityOutcome(outcomes: seq<(string, Outcome)>) returns (r: Result<(), Refusal>)
      modifies this`binds, this`version
      ensures match Applied(old(Value()), SetOutcomes(outcomes))
              case Ok(c) => r.Ok? && Value() == c
              case Err(e) => r == Err(e) && Value() == old(Value())
    {
      if outcomes == [] {
        return Err(BadIntent);
      }
      var fault := ResolveOutcomes(outcomes);
      if fault.Some? {
        return Err(fault.value);
      }
      var changed := WriteOutcomes(outcomes);
      if changed {
        version := version + 1;
      }
      return Ok(());
    }

    /** `apply_intent`, atomic: a refusal leaves the case untouched. */
    method ApplyIntent(intent: Intent) returns (r: Result<(), Refusal>)
      modifies this
      ensures match Applied(old(Value()), intent)
              case Ok(c) => r.Ok? && Value() == c
              case Err(e) => r == Err(e) && Value() == old(Value())
    {
      match intent {
        case AppendTimeline(entry) => r := AppendTimelineEntry(entry);
        case LinkMaterial(material, wellFormed, relation) =>
          r := LinkMaterialReference(material, wellFormed, relation);
        case RawPatch(paths, edit) => r := RawPatchFields(paths, edit);
        case SetOutcomes(outcomes) => r := SetEntityOutcome(outcomes);
        case UnknownIntent => r := Err(BadIntent);
      }
    }
  }

  /** `create`: the case is saved first, its dockets with it, then the other joins; a refusal leaves none. */
  method CreateCase(s: Creation) returns (r: Result<CaseInstance, Refusal>)
    ensures match Created(s)
            case Ok(c) => r.Ok? && fresh(r.value) && r.value.Value() == c && r.value.originalSlug == c.row.slug
            case Err(e) => r.Err? && r.error == e
  {
    if s.state != Draft {
      return Err(NotADraft);
    }
    var row := CreatedRow(s).(slug := s.slug);
    var instance := new CaseInstance(Case(row, [], [], [], [], []));
    instance.AssignCourtCases(s.courtCases);
    FirstsOfDistinct(instance.pendingCourtCases.value);
    assert CreatedRow(s) == row.(slug := Named(s.slug, s.generated));
    var saved := instance.Save(s.generated);
    if saved.Err? {
      return Err(saved.error);
    }
    assert instance.Value()
        == Case(WithDerivedDates(CreatedRow(s), CreatedStages(s)).(version := 1),
                [], [], Firsts(s.courtCases), [], []);
    var ok := instance.CreateJoins(s);
    if !ok {
      return Err(DuplicateEvidence);
    }
    return Ok(instance);
  }

  /** Saving an instance of the stored row is naming it, saving it, and writing what is pending. */
  lemma SaveInSteps(c: Case, i: Instance)
    requires i.row == c.row && (i.courtCases.Some? ==> Distinct(i.courtCases.value))
    ensures SavedInstance(c, i)
            == match Saved(c.(row := c.row.(slug := Named(c.row.slug, i.generated)),
                              courtCases := Keep(i.courtCases, c.courtCases)), i.originalSlug)
               case Err(e) => Err(e)
               case Ok(saved) => Ok(saved.(courtCases := Pending(i.courtCases, c.courtCases),
                                           authors := Pending(i.authors, c.authors)))
  {
    if i.courtCases.Some? {
      FirstsOfDistinct(i.courtCases.value);
    }
  }

  lemma {:induction false} FaultStays(binds: seq<Bind>, outcomes: seq<(string, Outcome)>, k: nat)
    requires k < |outcomes| && FirstFault(binds, outcomes[..k]) == None
    requires EntryFault(binds, outcomes[k]).Some?
    ensures FirstFault(binds, outcomes) == EntryFault(binds, outcomes[k])
  {
    var n := |outcomes| - 1;
    if k < n {
      assert outcomes[..n][..k] == outcomes[..k];
      FaultStays(binds, outcomes[..n], k);
    }
  }

  lemma {:induction false} NoFault(binds: seq<Bind>, outcomes: seq<(string, Outcome)>, k: nat)
    requires k < |outcomes| && FirstFault(binds, outcomes) == None
    ensures EntryFault(binds, outcomes[k]) == None
  {
    if k < |outcomes| - 1 {
      NoFault(binds, outcomes[..|outcomes| - 1], k);
    }
  }

  /** Writing verdicts does not change which bind an entity resolves to. */
  lemma {:induction false} SameBind(a: seq<Bind>, b: seq<Bind>, nesId: string)
    requires |a| == |b| && forall i | 0 <= i < |a| :: a[i].nesId == b[i].nesId
    ensures BindOf(a, nesId) == BindOf(b, nesId)
  {
    if a != [] {
      SameBind(a[..|a| - 1], b[..|b| - 1], nesId);
    }
  }

  /** One more resolved entry writes its bind, or leaves all of them when the verdict is there. */
  lemma WriteSnoc(binds: seq<Bind>, so: seq<Bind>, outcomes: seq<(string, Outcome)>, k: nat)
    requires k < |outcomes| && FirstFault(binds, outcomes) == None
    requires so == OutcomesWritten(binds, outcomes[..k])
    ensures BindOf(so, outcomes[k].0).Some?
    ensures var at := BindOf(so, outcomes[k].0).value;
            OutcomesWritten(binds, outcomes[..k + 1])
            == if so[at].outcome == Some(outcomes[k].1) then so
               else so[at := so[at].(outcome := Some(outcomes[k].1))]
    ensures OutcomesWritten(binds, outcomes[..k + 1]) == so
            <==> so[BindOf(so, outcomes[k].0).value].outcome == Some(outcomes[k].1)
  {
    NoFault(binds, outcomes, k);
    SameBind(binds, so, outcomes[k].0);
    assert outcomes[..k + 1][..k] == outcomes[..k];
    var at := BindOf(binds, outcomes[k].0).value;
    assert so[at := so[at]] == so;
  }

  lemma AnyChangeSnoc(binds: seq<Bind>, outcomes: seq<(string, Outcome)>, k: nat)
    requires k < |outcomes|
    ensures AnyChange(binds, outcomes[..k + 1])
            <==> || AnyChange(binds, outcomes[..k])
                 || OutcomesWritten(binds, outcomes[..k + 1]) != OutcomesWritten(binds, outcomes[..k])
  {
    assert outcomes[..k + 1][..k] == outcomes[..k];
  }
}
