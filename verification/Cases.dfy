/**
 One case as stored: its row and its joins, the writes the API performs on it, and what each
 write computes. These functions are the specification; CaseRow.dfy holds the methods that
 work on the stored fields step by step.

 JSON Patch and the field validators are foreign: a request carries them as one function from
 the snapshot to the validated document, None when either refuses.
 */
module Cases {
  import opened Common
  import opened Stages

  // ----- stored values -----

  datatype State = Draft | InReview | Published | Closed

  datatype Role =
    | Alleged | Accused | Related | Witness | Opposition | Victim | Location | Respondent | Petitioner

  datatype Outcome = Charged | Convicted | Acquitted | Abated | Remanded

  const TERMINAL_OUTCOMES: set<Outcome> := {Convicted, Acquitted, Abated}

  datatype Override = Withdrawn | Dormant

  /** The bind of a case to an entity. A verdict belongs to the accused role only. */
  datatype Bind = Bind(nesId: string, role: Role, outcome: Option<Outcome>, notes: string, ordinal: nat)

  datatype Evidence = Evidence(iri: string, details: string, ordinal: nat)

  datatype StateChange = StateChange(source: State, target: State, reason: string)

  /** The columns of the case row. `fields` holds the text columns no rule here looks into. */
  datatype Row = Row(
    slug: string,
    state: State,
    stages: seq<Stage>,
    started: Option<int>,
    decided: Option<int>,
    legacyStart: string,
    legacyEnd: string,
    publishDate: string,
    statusOverride: Option<Override>,
    timeline: seq<string>,
    fields: map<string, string>,
    version: nat)

  datatype Case = Case(
    row: Row,
    binds: seq<Bind>,
    evidence: seq<Evidence>,
    courtCases: seq<string>,
    authors: seq<nat>,
    log: seq<StateChange>)

  // ----- submitted values -----

  datatype SentOutcome = Omitted | SentNull | Sent(outcome: Outcome)

  datatype EntityItem = EntityItem(nesId: string, role: Role, outcome: SentOutcome, notes: string)

  datatype EvidenceItem = EvidenceItem(iri: string, details: string)

  /** The patchable surface of a case. None: the key is absent from the document. */
  datatype Doc = Doc(
    slug: Option<string>,
    state: Option<State>,
    stages: seq<Stage>,
    legacyStart: Option<string>,
    legacyEnd: Option<string>,
    publishDate: Option<string>,
    statusOverride: Option<Option<Override>>,
    timeline: Option<seq<string>>,
    fields: map<string, string>,
    entities: Option<seq<EntityItem>>,
    evidence: seq<EvidenceItem>,
    courtCases: seq<string>,
    authors: seq<nat>)

  datatype Op = Op(kind: string, path: string)

  datatype Request = Request(ops: seq<Op>, edit: Doc -> Option<Doc>, reason: string)

  datatype Refusal =
    | NotADraft | NotFound | Stale | BlockedPath | BadPatch | BadLegacyDate(legacy: LegacyError) | BadStages
    | EntitiesRemoved | DuplicateBind | DuplicateEvidence | DuplicateDocket
    | BadTransition(current: State) | Incomplete | SlugFrozen
    | BadIntent | UnknownEntity | NotAccused | NotProposable

  function Keep<T>(sent: Option<T>, stored: T): T {
    if sent.Some? then sent.value else stored
  }

  // ----- the snapshot -----

  function EntityItems(binds: seq<Bind>): (items: seq<EntityItem>)
    ensures |items| == |binds|
  {
    seq(|binds|, i requires 0 <= i < |binds| =>
      EntityItem(binds[i].nesId, binds[i].role,
                 if binds[i].outcome.Some? then Sent(binds[i].outcome.value) else SentNull,
                 binds[i].notes))
  }

  function EvidenceItems(evidence: seq<Evidence>): (items: seq<EvidenceItem>)
    ensures |items| == |evidence|
  {
    seq(|evidence|, i requires 0 <= i < |evidence| => EvidenceItem(evidence[i].iri, evidence[i].details))
  }

  /** `_build_snapshot` from the row and the four joins, each of which is its own query. */
  function SnapshotOf(
    row: Row, evidence: seq<Evidence>, binds: seq<Bind>, courtCases: seq<string>, authors: seq<nat>): Doc
  {
    Doc(Some(row.slug), Some(row.state), row.stages, Some(row.legacyStart), Some(row.legacyEnd),
        Some(row.publishDate), Some(row.statusOverride), Some(row.timeline), row.fields,
        Some(EntityItems(binds)), EvidenceItems(evidence), courtCases, authors)
  }

  function Snapshot(c: Case): Doc {
    SnapshotOf(c.row, c.evidence, c.binds, c.courtCases, c.authors)
  }

  // ----- the path gates -----

  predicate IsUnder(path: string, prefix: string) {
    path == prefix || prefix + "/" <= path
  }

  /** `_touches`: some op targets the path or a child of it. */
  predicate Touches(ops: seq<Op>, prefix: string) {
    exists i | 0 <= i < |ops| :: IsUnder(ops[i].path, prefix)
  }

  const BLOCKED_PATH_PREFIXES: set<string> :=
    {"/id", "/offence_type", "/case_type", "/version", "/created_at", "/updated_at", "/versionInfo"}

  predicate OpAllowed(op: Op, state: State) {
    && (op.path == "/state" ==> op.kind == "replace")
    && (IsUnder(op.path, "/slug") ==> state == Draft)
    && forall prefix | prefix in BLOCKED_PATH_PREFIXES :: !IsUnder(op.path, prefix)
  }

  /** `_reject_blocked_paths` lets the ops through. */
  predicate PathsAllowed(ops: seq<Op>, state: State) {
    forall i | 0 <= i < |ops| :: OpAllowed(ops[i], state)
  }

  // ----- the joins -----

  predicate SameKey(a: EntityItem, b: EntityItem) {
    a.nesId == b.nesId && a.role == b.role
  }

  predicate DistinctKeys(items: seq<EntityItem>) {
    forall i, j | 0 <= i < j < |items| :: !SameKey(items[i], items[j])
  }

  /** The verdict stored for a key before the rewrite: the last row's, as a dict keeps it. */
  function PriorOutcome(binds: seq<Bind>, nesId: string, role: Role): Option<Outcome> {
    if binds == [] then None
    else
      var last := binds[|binds| - 1];
      if last.nesId == nesId && last.role == role then last.outcome
      else PriorOutcome(binds[..|binds| - 1], nesId, role)
  }

  /** The verdict stored for a submitted bind, after the model's own normalisation. */
  function StoredOutcome(prior: seq<Bind>, item: EntityItem): Option<Outcome> {
    if item.role != Accused then None
    else match item.outcome
      case Sent(o) => Some(o)
      case SentNull => Some(Charged)
      case Omitted => Some(Keep(PriorOutcome(prior, item.nesId, item.role), Charged))
  }

  function RewrittenBinds(prior: seq<Bind>, items: seq<EntityItem>): (binds: seq<Bind>)
    ensures |binds| == |items|
  {
    seq(|items|, i requires 0 <= i < |items| =>
      Bind(items[i].nesId, items[i].role, StoredOutcome(prior, items[i]), items[i].notes, i))
  }

  function RewrittenEvidence(items: seq<EvidenceItem>): (evidence: seq<Evidence>)
    ensures |evidence| == |items|
  {
    seq(|items|, i requires 0 <= i < |items| => Evidence(items[i].iri, items[i].details, i))
  }

  predicate DistinctEvidence(items: seq<EvidenceItem>) {
    forall i, j | 0 <= i < j < |items| :: items[i].iri != items[j].iri
  }

  // ----- save and the workflow -----

  ghost function WithDerivedDates(row: Row, stages: seq<Stage>): Row {
    row.(stages := stages, started := Derived(stages).0, decided := Derived(stages).1)
  }

  predicate StagesFit(stages: seq<Stage>, courtCases: seq<string>) {
    Valid(stages, Some(set iri | iri in courtCases))
  }

  /** `Case.save` of an existing case loaded when its slug was `originalSlug`. */
  ghost function Saved(c: Case, originalSlug: string): Result<Case, Refusal> {
    if !StagesFit(c.row.stages, c.courtCases) then Err(BadStages)
    else if originalSlug != "" && originalSlug != c.row.slug && c.row.state != Draft then Err(SlugFrozen)
    else Ok(c.(row := WithDerivedDates(c.row, c.row.stages).(version := c.row.version + 1)))
  }

  /**
   An instance in memory: the columns assigned to it, the slug it was loaded with, and what was
   assigned to its two join properties since. `generated` is the slug `save` would make up.
   */
  datatype Instance = Instance(
    row: Row,
    originalSlug: string,
    courtCases: Option<seq<string>>,
    authors: Option<seq<nat>>,
    generated: string)

  /** A blank slug is replaced by a generated one. */
  function Named(slug: string, generated: string): string {
    if Strip(slug, BLANKS) == "" then generated else slug
  }

  /** The property reads a pending assignment before the join; the setter keeps first mentions. */
  function Pending<T(==)>(sent: Option<seq<T>>, stored: seq<T>): seq<T> {
    if sent.Some? then Firsts(sent.value) else stored
  }

  /** `Case.save` of any instance of the case, however edited or stale: the row, then the pending joins. */
  ghost function SavedInstance(c: Case, i: Instance): Result<Case, Refusal> {
    var row := i.row.(slug := Named(i.row.slug, i.generated), version := c.row.version);
    match Saved(c.(row := row, courtCases := Pending(i.courtCases, c.courtCases)), i.originalSlug)
    case Err(e) => Err(e)
    case Ok(saved) => Ok(saved.(authors := Pending(i.authors, c.authors)))
  }

  /** The rules `Case.validate` adds outside DRAFT: a named subject, an author, a publish date. */
  predicate Publishable(c: Case) {
    && (exists b :: b in c.binds && b.role != Location)
    && c.authors != []
    && c.row.publishDate != ""
  }

  predicate Allowed(source: State, target: State) {
    match target
    case InReview => source == Draft
    case Published => source == Draft || source == InReview
    case Draft => source == InReview || source == Published
    case Closed => source != Closed
  }

  /** `_apply_state_transition` to a state other than the current one. */
  ghost function Moved(c: Case, originalSlug: string, target: State, reason: string): Result<Case, Refusal> {
    var moved := c.(row := c.row.(state := target));
    if target == InReview && c.row.state != Draft then Err(BadTransition(c.row.state))
    else if target == Published && c.row.state !in {Draft, InReview} then Err(BadTransition(c.row.state))
    else if target in {InReview, Published} && !Publishable(moved) then Err(Incomplete)
    else match Saved(moved, originalSlug)
      case Err(e) => Err(e)
      case Ok(saved) => Ok(saved.(log := c.log + [StateChange(c.row.state, target, reason)]))
  }

  // ----- creation -----

  /** A validated creation. `dates` None: no stage document was sent. `generated` names a case sent without a slug. */
  datatype Creation = Creation(
    slug: string,
    generated: string,
    state: State,
    dates: Option<seq<Stage>>,
    legacyStart: string,
    legacyEnd: string,
    publishDate: string,
    statusOverride: Option<Override>,
    timeline: seq<string>,
    fields: map<string, string>,
    courtCases: seq<string>,
    accused: seq<string>,
    related: seq<string>,
    evidence: seq<EvidenceItem>,
    authors: seq<nat>)

  /** Deprecated dates sent without a stage document become its one first instance. */
  function CreatedStages(s: Creation): seq<Stage> {
    if s.dates.Some? then s.dates.value
    else if s.legacyStart != "" || s.legacyEnd != ""
    then [NEW_FIRST_INSTANCE.(start := s.legacyStart, end := s.legacyEnd)]
    else []
  }

  predicate IsBound(binds: seq<Bind>, nesId: string, role: Role) {
    exists i | 0 <= i < |binds| :: binds[i].nesId == nesId && binds[i].role == role
  }

  /** `get_or_create` per id: an id already bound in this role adds nothing. */
  function CreatedBinds(binds: seq<Bind>, nesIds: seq<string>, role: Role): seq<Bind>
    decreases nesIds
  {
    if nesIds == [] then binds
    else
      var next :=
        if IsBound(binds, nesIds[0], role) then binds
        else binds + [Bind(nesIds[0], role, if role == Accused then Some(Charged) else None, "", |binds|)];
      CreatedBinds(next, nesIds[1..], role)
  }

  function CreatedRow(s: Creation): Row {
    Row(Named(s.slug, s.generated), Draft, CreatedStages(s), None, None, s.legacyStart, s.legacyEnd, s.publishDate,
        s.statusOverride, s.timeline, s.fields, 0)
  }

  /** `create`: always a DRAFT, saved through the model, with no state-change row. */
  ghost function Created(s: Creation): Result<Case, Refusal> {
    var courtCases := Firsts(s.courtCases);
    if s.state != Draft then Err(NotADraft)
    else if !StagesFit(CreatedStages(s), courtCases) then Err(BadStages)
    else if !DistinctEvidence(s.evidence) then Err(DuplicateEvidence)
    else
      Ok(Case(WithDerivedDates(CreatedRow(s), CreatedStages(s)).(version := 1),
              CreatedBinds(CreatedBinds([], s.accused, Accused), s.related, Related),
              RewrittenEvidence(s.evidence), courtCases, Firsts(s.authors), []))
  }

  // ----- PATCH -----

  /** The stage list a request asks for, with the deprecated dates written into it. */
  function RequestedStages(req: Request, doc: Doc): Result<seq<Stage>, LegacyError> {
    var first :=
      if Touches(req.ops, "/case_start_date")
      then LegacyWrite(doc.stages, "start", Keep(doc.legacyStart, "")) else Ok(doc.stages);
    if first.Err? || !Touches(req.ops, "/case_end_date") then first
    else LegacyWrite(first.value, "end", Keep(doc.legacyEnd, ""))
  }

  function RequestedDockets(c: Case, req: Request, doc: Doc): seq<string> {
    if Touches(req.ops, "/court_cases") then doc.courtCases else c.courtCases
  }

  /** The bulk UPDATE of the scalar columns; the two derived dates are always part of it. */
  ghost function ScalarsWritten(row: Row, doc: Doc, stages: seq<Stage>): Row {
    WithDerivedDates(row, stages).(
      slug := Keep(doc.slug, row.slug),
      legacyStart := Keep(doc.legacyStart, row.legacyStart),
      legacyEnd := Keep(doc.legacyEnd, row.legacyEnd),
      publishDate := Keep(doc.publishDate, row.publishDate),
      statusOverride := Keep(doc.statusOverride, row.statusOverride),
      timeline := Keep(doc.timeline, row.timeline),
      fields := row.fields + doc.fields,
      version := row.version + 1)
  }

  /** `_write_joins`, each join only when an op targets it. */
  function JoinsWritten(c: Case, req: Request, doc: Doc): Result<Case, Refusal> {
    if Touches(req.ops, "/entities") && doc.entities.None? then Err(EntitiesRemoved)
    else if Touches(req.ops, "/entities") && !DistinctKeys(doc.entities.value) then Err(DuplicateBind)
    else if Touches(req.ops, "/evidence") && !DistinctEvidence(doc.evidence) then Err(DuplicateEvidence)
    else if Touches(req.ops, "/court_cases") && !Distinct(doc.courtCases) then Err(DuplicateDocket)
    else Ok(c.(
      binds := if Touches(req.ops, "/entities") then RewrittenBinds(c.binds, doc.entities.value) else c.binds,
      evidence := if Touches(req.ops, "/evidence") then RewrittenEvidence(doc.evidence) else c.evidence,
      courtCases := RequestedDockets(c, req, doc),
      authors := if Touches(req.ops, "/authors") then Firsts(doc.authors) else c.authors))
  }

  /** The writes of the transaction, once the stages it asks for are accepted. */
  ghost function Written(c: Case, req: Request, doc: Doc, stages: seq<Stage>): Result<Case, Refusal> {
    match JoinsWritten(c.(row := ScalarsWritten(c.row, doc, stages)), req, doc)
    case Err(e) => Err(e)
    case Ok(written) =>
      if doc.state.None? || doc.state.value == written.row.state then Ok(written)
      else Moved(written, c.row.slug, doc.state.value, req.reason)
  }

  /** Everything `partial_update` does under the row lock with an already validated document. */
  ghost function Committed(c: Case, req: Request, doc: Doc): Result<Case, Refusal> {
    match RequestedStages(req, doc)
    case Err(e) => Err(BadLegacyDate(e))
    case Ok(stages) =>
      if !StagesFit(stages, RequestedDockets(c, req, doc)) then Err(BadStages) else Written(c, req, doc, stages)
  }

  /** A whole PATCH run alone on the case. */
  ghost function Patched(c: Case, req: Request): Result<Case, Refusal> {
    if c.row.state == Closed then Err(NotFound)
    else if !PathsAllowed(req.ops, c.row.state) then Err(BlockedPath)
    else match req.edit(Snapshot(c))
      case None => Err(BadPatch)
      case Some(doc) => Committed(c, req, doc)
  }

  /** `destroy`: a soft delete, which writes no state-change row. */
  ghost function Destroyed(c: Case): Result<Case, Refusal> {
    if c.row.state == Closed then Err(NotFound)
    else Saved(c.(row := c.row.(state := Closed)), c.row.slug)
  }

  // ----- approved intents -----

  /** What a raw patch may see and change: the timeline and the free-text columns, each as far as it is there. */
  datatype RawView = RawView(timeline: Option<seq<string>>, fields: map<string, string>)

  const RAW_PATCH_FIELDS: set<string> :=
    {"description", "short_description", "notes", "public_notes", "tags", "key_allegations", "missing_details"}

  datatype Intent =
    /** `entry` None: the timeline serializer refused it. */
    | AppendTimeline(entry: Option<string>)
    | LinkMaterial(material: string, wellFormed: bool, relation: string)
    /** `paths` holds every non-empty op path and `from` pointer, cut to its first segment. */
    | RawPatch(paths: seq<string>, edit: RawView -> Option<RawView>)
    | SetOutcomes(outcomes: seq<(string, Outcome)>)
    | UnknownIntent

  predicate RawPathAllowed(path: string) {
    path == "timeline" || path in RAW_PATCH_FIELDS
  }

  function RawViewOf(row: Row): RawView {
    RawView(Some(row.timeline), map f | f in row.fields && f in RAW_PATCH_FIELDS :: row.fields[f])
  }

  function MaxOrdinal(evidence: seq<Evidence>): nat {
    if evidence == [] then 0
    else
      var m := MaxOrdinal(evidence[..|evidence| - 1]);
      if evidence[|evidence| - 1].ordinal > m then evidence[|evidence| - 1].ordinal else m
  }

  predicate Cites(evidence: seq<Evidence>, iri: string) {
    exists i | 0 <= i < |evidence| :: evidence[i].iri == iri
  }

  /** `_link_material`: append after the existing evidence, or leave an existing bind alone. */
  function Linked(c: Case, material: string, relation: string): Case {
    if Cites(c.evidence, material) then c
    else c.(evidence := c.evidence + [Evidence(material, if relation != "" then "relation: " + relation else "",
                                               MaxOrdinal(c.evidence) + 1)],
            row := c.row.(version := c.row.version + 1))
  }

  /** The bind a dict keyed by entity id keeps: the last one. None when there is none. */
  function BindOf(binds: seq<Bind>, nesId: string): (at: Option<nat>)
    ensures at.Some? ==> at.value < |binds| && binds[at.value].nesId == nesId
  {
    if binds == [] then None
    else if binds[|binds| - 1].nesId == nesId then Some(|binds| - 1)
    else BindOf(binds[..|binds| - 1], nesId)
  }

  /** What the resolving loop of `_set_entity_outcome` says of one entry. */
  function EntryFault(binds: seq<Bind>, entry: (string, Outcome)): Option<Refusal> {
    if entry.0 == "" then Some(BadIntent)
    else if entry.1 !in TERMINAL_OUTCOMES then Some(NotProposable)
    else match BindOf(binds, entry.0)
      case None => Some(UnknownEntity)
      case Some(at) => if binds[at].role != Accused then Some(NotAccused) else None
  }

  /** The fault of the first bad entry. */
  function FirstFault(binds: seq<Bind>, outcomes: seq<(string, Outcome)>): Option<Refusal> {
    if outcomes == [] then None
    else
      var front := FirstFault(binds, outcomes[..|outcomes| - 1]);
      if front.Some? then front else EntryFault(binds, outcomes[|outcomes| - 1])
  }

  /** The binds after the entries are written in order; a later entry for an entity wins. */
  function OutcomesWritten(binds: seq<Bind>, outcomes: seq<(string, Outcome)>): (r: seq<Bind>)
    ensures |r| == |binds|
    ensures forall i | 0 <= i < |binds| :: r[i] == binds[i].(outcome := r[i].outcome)
  {
    if outcomes == [] then binds
    else
      var front := OutcomesWritten(binds, outcomes[..|outcomes| - 1]);
      var (nesId, outcome) := outcomes[|outcomes| - 1];
      match BindOf(binds, nesId)
      case None => front
      case Some(at) => front[at := front[at].(outcome := Some(outcome))]
  }

  /** Some write found a bind whose verdict differed from the one it set. */
  predicate AnyChange(binds: seq<Bind>, outcomes: seq<(string, Outcome)>) {
    outcomes != [] && (
      || AnyChange(binds, outcomes[..|outcomes| - 1])
      || OutcomesWritten(binds, outcomes) != OutcomesWritten(binds, outcomes[..|outcomes| - 1]))
  }

  /** `apply_intent` on a locked case. */
  function Applied(c: Case, intent: Intent): Result<Case, Refusal> {
    match intent
    case AppendTimeline(None) => Err(BadIntent)
    case AppendTimeline(Some(entry)) =>
      Ok(c.(row := c.row.(timeline := c.row.timeline + [entry], version := c.row.version + 1)))
    case LinkMaterial(material, wellFormed, relation) =>
      if material == "" || !wellFormed then Err(BadIntent) else Ok(Linked(c, material, relation))
    case RawPatch(paths, edit) =>
      if exists i | 0 <= i < |paths| :: !RawPathAllowed(paths[i]) then Err(BadIntent)
      else (match edit(RawViewOf(c.row))
        case None => Err(BadIntent)
        case Some(view) =>
          var known := map f | f in view.fields && f in RAW_PATCH_FIELDS :: view.fields[f];
          if view.timeline.None? && known == map[] then Ok(c)
          else Ok(c.(row := c.row.(timeline := Keep(view.timeline, c.row.timeline),
                                   fields := c.row.fields + known,
                                   version := c.row.version + 1))))
    case SetOutcomes(outcomes) =>
      if outcomes == [] then Err(BadIntent)
      else (match FirstFault(c.binds, outcomes)
        case Some(e) => Err(e)
        case None =>
          Ok(c.(binds := OutcomesWritten(c.binds, outcomes),
                row := if AnyChange(c.binds, outcomes) then c.row.(version := c.row.version + 1) else c.row)))
    case UnknownIntent => Err(BadIntent)
  }
}
