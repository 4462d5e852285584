/**
 Case-update proposals: staging by a job or by hand, editing, approving and rejecting
 (case_proposals/job_kind.py, views.py, apply.py).

 The first half gives each operation run alone, and a desk object whose methods are proved to
 compute it. The second half interleaves any number of them: a uniqueness query and the insert
 that follows it are separate steps, and a decision holds the proposal's row lock from its
 PENDING check to its commit.
 */
module Proposals {
  import opened Common
  import opened Cases
  import opened CaseLaws
  import opened CaseRow

  // ----- stored values -----

  datatype ProposalStatus = Pending | Approved | Rejected

  datatype Proposal = Proposal(key: string, caseSlug: string, intent: Intent, status: ProposalStatus)

  datatype Desk = Desk(proposals: seq<Proposal>, cases: map<string, Case>)

  // ----- submitted values -----

  datatype Confidence = Unreadable | NotFinite | Finite(value: real)

  /** A model's answer. `otherFieldsFit`: the serializer's checks on provenance and slug. */
  datatype Answer =
    | NotAnObject
    | NoIntent
    | IntentNotAnObject
    | Drafted(intent: Intent, confidence: Confidence, otherFieldsFit: bool)

  datatype Reply =
    | Declined | BelowThreshold | Duplicate | Invalid | Staged(id: nat)
    | Missing | Conflict | NotApplied(why: Refusal) | Decided | Edited

  // ----- each operation alone -----

  predicate KeyUsed(proposals: seq<Proposal>, key: string) {
    exists i | 0 <= i < |proposals| :: proposals[i].key == key
  }

  /** `validate_intent_shape`, as far as the parsed intent shows it. */
  predicate ShapeFits(intent: Intent) {
    match intent
    case AppendTimeline(_) => true
    case LinkMaterial(material, _, _) => material != ""
    case RawPatch(paths, _) => true
    case SetOutcomes(outcomes) => outcomes != [] && forall i | 0 <= i < |outcomes| :: outcomes[i].0 != ""
    case UnknownIntent => false
  }

  predicate Draftable(intent: Intent) {
    intent.AppendTimeline? || intent.LinkMaterial?
  }

  /** What `on_result` says before it looks at the database; None lets the draft through. */
  function Gate(answer: Answer, key: string, threshold: real): Option<Reply> {
    match answer
    case NotAnObject => Some(Invalid)
    case NoIntent => Some(Declined)
    case IntentNotAnObject => Some(Invalid)
    case Drafted(intent, confidence, _) =>
      if !Draftable(intent) then Some(Invalid)
      else if !confidence.Finite? || confidence.value < 0.0 || 1.0 < confidence.value then Some(Invalid)
      else if confidence.value < threshold then Some(BelowThreshold)
      else if key == "" then Some(Invalid)
      else None
  }

  /** The insert: the unique index on the key is the last word. */
  function Inserted(proposals: seq<Proposal>, key: string, caseSlug: string, intent: Intent): Option<seq<Proposal>> {
    if KeyUsed(proposals, key) then None else Some(proposals + [Proposal(key, caseSlug, intent, Pending)])
  }

  /** `on_result` alone: the rows afterwards and what is recorded on the job. */
  function AfterResult(proposals: seq<Proposal>, answer: Answer, key: string, caseSlug: string, threshold: real)
    : (seq<Proposal>, Reply)
  {
    if Gate(answer, key, threshold).Some? then (proposals, Gate(answer, key, threshold).value)
    else if KeyUsed(proposals, key) then (proposals, Duplicate)
    else if !ShapeFits(answer.intent) || !answer.otherFieldsFit then (proposals, Invalid)
    else (proposals + [Proposal(key, caseSlug, answer.intent, Pending)], Staged(|proposals|))
  }

  function Resolved(p: Proposal, status: ProposalStatus): Proposal {
    p.(status := status)
  }

  /** `_decide` on a pending proposal: the case write and the status, or a refusal and neither. */
  function Decision(d: Desk, p: nat, approve: bool): Result<Desk, Refusal>
    requires p < |d.proposals|
  {
    var proposal := d.proposals[p];
    if !approve then Ok(d.(proposals := d.proposals[p := Resolved(proposal, Rejected)]))
    else if proposal.caseSlug !in d.cases then Err(NotFound)
    else match Applied(d.cases[proposal.caseSlug], proposal.intent)
      case Err(e) => Err(e)
      case Ok(after) =>
        Ok(Desk(d.proposals[p := Resolved(proposal, Approved)], d.cases[proposal.caseSlug := after]))
  }

  function Correction(d: Desk, p: nat, intent: Intent): Desk
    requires p < |d.proposals|
  {
    d.(proposals := d.proposals[p := d.proposals[p].(intent := intent)])
  }

  // ----- when each is accepted -----

  /** A confidence the database takes: a number from 0 to 1. */
  predicate InRange(confidence: Confidence) {
    confidence.Finite? && 0.0 <= confidence.value <= 1.0
  }

  /** An answer that names a fact to stage, well enough and under a key. */
  predicate Stageable(answer: Answer, key: string, threshold: real) {
    && answer.Drafted? && (answer.intent.AppendTimeline? || answer.intent.LinkMaterial?)
    && InRange(answer.confidence) && threshold <= answer.confidence.value && key != ""
  }

  /**
   The reply to a job result, condition by condition, and the one row it may add: a pending one
   under the key. A declined or a weak answer is told apart from an invalid one; a key that was
   ever used makes a duplicate of whatever could be staged.
   */
  lemma ResultIsAnsweredExactly(
    proposals: seq<Proposal>, answer: Answer, key: string, caseSlug: string, threshold: real)
    ensures var (rows, reply) := AfterResult(proposals, answer, key, caseSlug, threshold);
            var used := exists p | 0 <= p < |proposals| :: proposals[p].key == key;
            && (reply.Staged? <==> Stageable(answer, key, threshold) && !used && answer.otherFieldsFit
                                   && !(answer.intent.LinkMaterial? && answer.intent.material == ""))
            && (reply.Staged? ==> reply.id == |proposals|
                                  && rows == proposals + [Proposal(key, caseSlug, answer.intent, Pending)])
            && (!reply.Staged? ==> rows == proposals)
            && (reply == Declined <==> answer == NoIntent)
            && (reply == Duplicate <==> Stageable(answer, key, threshold) && used)
            && (reply == BelowThreshold <==>
                  && answer.Drafted? && (answer.intent.AppendTimeline? || answer.intent.LinkMaterial?)
                  && InRange(answer.confidence) && answer.confidence.value < threshold)
            && (reply.Staged? || reply in {Declined, Duplicate, BelowThreshold, Invalid})
  {
  }

  /**
   A decision fails exactly when it approves what cannot be applied. A rejection touches no case;
   an approval replaces the one case by what the intent makes of it; no other row changes.
   */
  lemma DecisionSucceedsExactlyWhen(d: Desk, p: nat, approve: bool)
    requires p < |d.proposals|
    ensures var proposal, r := d.proposals[p], Decision(d, p, approve);
            && (r.Ok? <==> approve ==> proposal.caseSlug in d.cases
                                       && Applied(d.cases[proposal.caseSlug], proposal.intent).Ok?)
            && (r.Err? ==> r.error == if proposal.caseSlug !in d.cases then NotFound
                                      else Applied(d.cases[proposal.caseSlug], proposal.intent).error)
            && (r.Ok? ==>
                  && r.value.proposals
                     == d.proposals[p := proposal.(status := if approve then Approved else Rejected)]
                  && r.value.cases.Keys == d.cases.Keys
                  && forall slug | slug in d.cases ::
                       if approve && slug == proposal.caseSlug
                       then Applied(d.cases[slug], proposal.intent) == Ok(r.value.cases[slug])
                       else r.value.cases[slug] == d.cases[slug])
  {
  }

  /** The shape check refuses only what no case could take: an intent it refuses is never applied. */
  lemma UnfitIntentIsNeverApplied(c: Case, intent: Intent)
    requires Applied(c, intent).Ok?
    ensures ShapeFits(intent)
  {
    if intent.SetOutcomes? {
      FirstFaultIsNone(c.binds, intent.outcomes);
    }
  }

  lemma {:induction false} FirstFaultIsNone(binds: seq<Bind>, outcomes: seq<(string, Outcome)>)
    requires FirstFault(binds, outcomes) == None
    ensures forall i | 0 <= i < |outcomes| :: outcomes[i].0 != ""
  {
    if outcomes != [] {
      FirstFaultIsNone(binds, outcomes[..|outcomes| - 1]);
    }
  }

  /** What it refuses: an unknown type, a material without an id, no verdicts or one for nobody. */
  lemma ShapeFitsExactly(intent: Intent)
    ensures !ShapeFits(intent)
            <==> || intent.UnknownIntent?
                 || (intent.LinkMaterial? && intent.material == "")
                 || (intent.SetOutcomes? && (intent.outcomes == [] || exists e :: e in intent.outcomes && e.0 == ""))
  {
    if intent.SetOutcomes? {
      if e :| e in intent.outcomes && e.0 == "" {
        var i :| 0 <= i < |intent.outcomes| && intent.outcomes[i] == e;
        assert intent.outcomes[i].0 == "";
      }
    }
  }

  // ----- the desk as the code keeps it -----

  class ProposalDesk {
    var proposals: seq<Proposal>
    var cases: map<string, Case>

    function Value(): Desk
      reads this
    {
      Desk(proposals, cases)
    }

    constructor (cases: map<string, Case>)
      ensures Value() == Desk([], cases)
    {
      this.proposals, this.cases := [], cases;
    }

    /** `already_staged`: a row with this key, whatever was decided about it. */
    method AlreadyStaged(key: string) returns (staged: bool)
      ensures staged <==> KeyUsed(proposals, key)
    {
      for i := 0 to |proposals|
        invariant forall k | 0 <= k < i :: proposals[k].key != key
      {
        if proposals[i].key == key {
          return true;
        }
      }
      staged := false;
    }

    /** `on_result` with nothing else running; the reply is what it records on the job. */
    method OnResult(answer: Answer, key: string, caseSlug: string, threshold: real) returns (reply: Reply)
      modifies this`proposals
      ensures (proposals, reply) == AfterResult(old(proposals), answer, key, caseSlug, threshold)
    {
      var refused := Gate(answer, key, threshold);
      if refused.Some? {
        return refused.value;
      }
      var staged := AlreadyStaged(key);
      if staged {
        return Duplicate;
      }
      if !ShapeFits(answer.intent) || !answer.otherFieldsFit {
        return Invalid;
      }
      reply := Staged(|proposals|);
      proposals := proposals + [Proposal(key, caseSlug, answer.intent, Pending)];
    }

    /** `_decide`: the PENDING check, the case write, the status. */
    method Decide(p: nat, approve: bool) returns (reply: Reply)
      requires p < |proposals|
      modifies this
      ensures if old(proposals)[p].status != Pending then reply == Conflict && Value() == old(Value())
              else match Decision(old(Value()), p, approve)
                case Ok(d) => reply == Decided && Value() == d
                case Err(e) => reply == NotApplied(e) && Value() == old(Value())
    {
      var proposal := proposals[p];
      if proposal.status != Pending {
        return Conflict;
      }
      if approve {
        if proposal.caseSlug !in cases {
          return NotApplied(NotFound);
        }
        var row := new CaseInstance(cases[proposal.caseSlug]);
        var applied := row.ApplyIntent(proposal.intent);
        if applied.Err? {
          return NotApplied(applied.error);
        }
        cases := cases[proposal.caseSlug := row.Value()];
      }
      proposals := proposals[p := Resolved(proposal, if approve then Approved else Rejected)];
      return Decided;
    }

    /** `edit_intent`. */
    method EditIntent(p: nat, intent: Intent) returns (reply: Reply)
      requires p < |proposals|
      modifies this`proposals
      ensures if !ShapeFits(intent) then reply == Invalid && proposals == old(proposals)
              else if old(proposals)[p].status != Pending then reply == Conflict && proposals == old(proposals)
              else reply == Edited && Value() == Correction(old(Value()), p, intent)
    {
      if !ShapeFits(intent) {
        return Invalid;
      }
      if proposals[p].status != Pending {
        return Conflict;
      }
      proposals := proposals[p := proposals[p].(intent := intent)];
      return Edited;
    }
  }

  // ----- interleaved tasks -----

  datatype Task =
    | Draft(answer: Answer, key: string, caseSlug: string, threshold: real)
    | Post(key: string, caseSlug: string, intent: Intent, otherFieldsFit: bool)
    | Decide(proposal: nat, approve: bool)
    | Edit(proposal: nat, intent: Intent)

  datatype Phase =
    | Start
    /** `already_staged` said no. */
    | Unclaimed
    /** The serializer accepted the row, its own uniqueness query included. */
    | Validated
    /** The proposal row is locked and was seen PENDING under the lock. */
    | Holding
    | Ended(reply: Reply)

  /** One applied intent: whose, to which case, and what was applied. */
  datatype Application = Application(proposal: nat, caseSlug: string, intent: Intent)

  /** `holders`: which task holds each proposal's row lock. `applied` is written, never read. */
  datatype Office = Office(
    desk: Desk,
    tasks: seq<Task>,
    phases: seq<Phase>,
    holders: map<nat, nat>,
    applied: seq<Application>)

  predicate Opens(o: Office) {
    && |o.phases| == |o.tasks| && o.desk.proposals == [] && o.holders == map[] && o.applied == []
    && forall t | 0 <= t < |o.tasks| :: o.phases[t] == Start
  }

  function To(o: Office, t: nat, phase: Phase): Office
    requires t < |o.phases|
  {
    o.(phases := o.phases[t := phase])
  }

  function Lets(o: Office, t: nat, p: nat, reply: Reply): Office
    requires t < |o.phases|
  {
    To(o, t, Ended(reply)).(holders := o.holders - {p})
  }

  function Insert(o: Office, t: nat, key: string, caseSlug: string, intent: Intent): Office
    requires t < |o.phases|
  {
    match Inserted(o.desk.proposals, key, caseSlug, intent)
    case None => To(o, t, Ended(Duplicate))
    case Some(proposals) =>
      To(o, t, Ended(Staged(|o.desk.proposals|))).(desk := o.desk.(proposals := proposals))
  }

  /** `on_result`, one query at a time. */
  function DraftStep(o: Office, t: nat): Office
    requires t < |o.phases| && t < |o.tasks| && o.tasks[t].Draft?
  {
    var task := o.tasks[t];
    if Gate(task.answer, task.key, task.threshold).Some? then
      if o.phases[t].Start? then To(o, t, Ended(Gate(task.answer, task.key, task.threshold).value)) else o
    else match o.phases[t]
      case Start => To(o, t, if KeyUsed(o.desk.proposals, task.key) then Ended(Duplicate) else Unclaimed)
      case Unclaimed =>
        To(o, t, if ShapeFits(task.answer.intent) && task.answer.otherFieldsFit && !KeyUsed(o.desk.proposals, task.key)
                 then Validated else Ended(Invalid))
      case Validated => Insert(o, t, task.key, task.caseSlug, task.answer.intent)
      case _ => o
  }

  /** The HTTP create. */
  function PostStep(o: Office, t: nat): Office
    requires t < |o.phases| && t < |o.tasks| && o.tasks[t].Post?
  {
    var task := o.tasks[t];
    match o.phases[t]
    case Start =>
      To(o, t, if ShapeFits(task.intent) && task.otherFieldsFit && !KeyUsed(o.desk.proposals, task.key)
               then Validated else Ended(Invalid))
    case Validated => Insert(o, t, task.key, task.caseSlug, task.intent)
    case _ => o
  }

  /** Take the row lock and check the status under it; wait while another task holds it. */
  function Claim(o: Office, t: nat, p: nat): Office
    requires t < |o.phases|
  {
    if p >= |o.desk.proposals| then To(o, t, Ended(Missing))
    else if p in o.holders then o
    else if o.desk.proposals[p].status != Pending then To(o, t, Ended(Conflict))
    else To(o, t, Holding).(holders := o.holders[p := t])
  }

  function DecideStep(o: Office, t: nat): Office
    requires t < |o.phases| && t < |o.tasks| && o.tasks[t].Decide?
  {
    var p, approve := o.tasks[t].proposal, o.tasks[t].approve;
    match o.phases[t]
    case Start => Claim(o, t, p)
    case Holding =>
      if p >= |o.desk.proposals| then o
      else (match Decision(o.desk, p, approve)
        case Err(e) => Lets(o, t, p, NotApplied(e))
        case Ok(desk) =>
          var proposal := o.desk.proposals[p];
          Lets(o, t, p, Decided).(
            desk := desk,
            applied := o.applied
                       + if approve then [Application(p, proposal.caseSlug, proposal.intent)] else []))
    case _ => o
  }

  function EditStep(o: Office, t: nat): Office
    requires t < |o.phases| && t < |o.tasks| && o.tasks[t].Edit?
  {
    var p, intent := o.tasks[t].proposal, o.tasks[t].intent;
    match o.phases[t]
    case Start => if !ShapeFits(intent) then To(o, t, Ended(Invalid)) else Claim(o, t, p)
    case Holding =>
      if p >= |o.desk.proposals| then o
      else Lets(o, t, p, Edited).(desk := Correction(o.desk, p, intent))
    case _ => o
  }

  function Step(o: Office, t: nat): Office
    requires |o.phases| == |o.tasks|
  {
    if t >= |o.tasks| then o
    else match o.tasks[t]
      case Draft(_, _, _, _) => DraftStep(o, t)
      case Post(_, _, _, _) => PostStep(o, t)
      case Decide(_, _) => DecideStep(o, t)
      case Edit(_, _) => EditStep(o, t)
  }

  function Play(o: Office, schedule: seq<nat>): (end: Office)
    requires |o.phases| == |o.tasks|
    ensures |end.phases| == |end.tasks| && end.tasks == o.tasks
  {
    if schedule == [] then o
    else Step(Play(o, schedule[..|schedule| - 1]), schedule[|schedule| - 1])
  }

  // ----- the invariant -----

  predicate KeysDistinct(proposals: seq<Proposal>) {
    forall i, j | 0 <= i < j < |proposals| :: proposals[i].key != proposals[j].key
  }

  /** The row a task has locked is a pending proposal, and no other task has it locked. */
  predicate HoldersOk(o: Office) {
    && |o.phases| == |o.tasks|
    && (forall t | 0 <= t < |o.tasks| && o.phases[t].Holding? ::
          && (o.tasks[t].Decide? || o.tasks[t].Edit?)
          && o.tasks[t].proposal in o.holders && o.holders[o.tasks[t].proposal] == t)
    && (forall p | p in o.holders :: p < |o.desk.proposals| && o.desk.proposals[p].status == Pending)
  }

  /** An intent was applied for each approved proposal, the stored one, once; for no other. */
  ghost predicate AppliedOk(proposals: seq<Proposal>, applied: seq<Application>) {
    && (forall k | 0 <= k < |applied| ::
          && applied[k].proposal < |proposals|
          && proposals[applied[k].proposal].status == Approved
          && proposals[applied[k].proposal].caseSlug == applied[k].caseSlug
          && proposals[applied[k].proposal].intent == applied[k].intent)
    && (forall k, l | 0 <= k < l < |applied| :: applied[k].proposal != applied[l].proposal)
    && (forall p | 0 <= p < |proposals| && proposals[p].status == Approved ::
          exists k :: 0 <= k < |applied| && applied[k].proposal == p)
  }

  /** The cases after the applied intents, in order. */
  function Folded(cases: map<string, Case>, applied: seq<Application>): (after: map<string, Case>)
    ensures after.Keys == cases.Keys
  {
    if applied == [] then cases
    else
      var before := Folded(cases, applied[..|applied| - 1]);
      var last := applied[|applied| - 1];
      if last.caseSlug !in before then before
      else match Applied(before[last.caseSlug], last.intent)
        case Ok(after) => before[last.caseSlug := after]
        case Err(_) => before
  }

  ghost predicate Inv(cases: map<string, Case>, o: Office) {
    && KeysDistinct(o.desk.proposals) && HoldersOk(o) && AppliedOk(o.desk.proposals, o.applied)
    && o.desk.cases == Folded(cases, o.applied)
  }

  /** Proposals never disappear, keep their key, and never change once decided. */
  ghost predicate Follows(before: seq<Proposal>, after: seq<Proposal>) {
    && |before| <= |after|
    && forall p | 0 <= p < |before| ::
         && after[p].key == before[p].key && after[p].caseSlug == before[p].caseSlug
         && (before[p].status != Pending ==> after[p] == before[p])
  }

  // ----- every step keeps it -----

  lemma MoveKeeps(cases: map<string, Case>, o: Office, t: nat, phase: Phase)
    requires Inv(cases, o) && t < |o.tasks| && !o.phases[t].Holding? && !phase.Holding?
    ensures Inv(cases, To(o, t, phase))
  {
  }

  lemma InsertKeepsRecords(proposals: seq<Proposal>, applied: seq<Application>, added: Proposal)
    requires KeysDistinct(proposals) && AppliedOk(proposals, applied)
    requires !KeyUsed(proposals, added.key) && added.status == Pending
    ensures KeysDistinct(proposals + [added]) && AppliedOk(proposals + [added], applied)
  {
  }

  lemma InsertKeepsHolders(o: Office, t: nat, phase: Phase, added: Proposal)
    requires HoldersOk(o) && t < |o.tasks| && !o.phases[t].Holding? && !phase.Holding?
    ensures HoldersOk(To(o, t, phase).(desk := o.desk.(proposals := o.desk.proposals + [added])))
  {
  }

  lemma InsertKeeps(cases: map<string, Case>, o: Office, t: nat, key: string, caseSlug: string, intent: Intent)
    requires Inv(cases, o) && t < |o.tasks| && !o.phases[t].Holding?
    ensures Inv(cases, Insert(o, t, key, caseSlug, intent))
    ensures Follows(o.desk.proposals, Insert(o, t, key, caseSlug, intent).desk.proposals)
  {
    if KeyUsed(o.desk.proposals, key) {
      MoveKeeps(cases, o, t, Ended(Duplicate));
    } else {
      var added := Proposal(key, caseSlug, intent, Pending);
      InsertKeepsRecords(o.desk.proposals, o.applied, added);
      InsertKeepsHolders(o, t, Ended(Staged(|o.desk.proposals|)), added);
    }
  }

  lemma ClaimKeepsHolders(o: Office, t: nat)
    requires HoldersOk(o) && t < |o.tasks| && o.phases[t].Start?
    requires o.tasks[t].Decide? || o.tasks[t].Edit?
    ensures HoldersOk(Claim(o, t, o.tasks[t].proposal))
  {
    var next := Claim(o, t, o.tasks[t].proposal);
    assert forall u | 0 <= u < |o.tasks| && u != t :: next.phases[u] == o.phases[u];
  }

  lemma ClaimKeeps(cases: map<string, Case>, o: Office, t: nat)
    requires Inv(cases, o) && t < |o.tasks| && o.phases[t].Start?
    requires o.tasks[t].Decide? || o.tasks[t].Edit?
    ensures Inv(cases, Claim(o, t, o.tasks[t].proposal)) && Claim(o, t, o.tasks[t].proposal).desk == o.desk
  {
    ClaimKeepsHolders(o, t);
    var next := Claim(o, t, o.tasks[t].proposal);
    assert next.desk == o.desk && next.applied == o.applied;
  }

  /** The lock is given up; only the proposal it was on may have changed. */
  lemma LetsKeepsHolders(o: Office, t: nat, reply: Reply, desk: Desk)
    requires HoldersOk(o) && t < |o.tasks| && o.phases[t].Holding?
    requires |desk.proposals| == |o.desk.proposals|
    requires forall q | 0 <= q < |desk.proposals| && q != o.tasks[t].proposal ::
               desk.proposals[q] == o.desk.proposals[q]
    ensures HoldersOk(Lets(o, t, o.tasks[t].proposal, reply).(desk := desk))
  {
    var next := Lets(o, t, o.tasks[t].proposal, reply);
    assert forall u | 0 <= u < |o.tasks| && u != t :: next.phases[u] == o.phases[u];
  }

  /** A pending proposal may change as long as it stays unapproved. */
  lemma ChangeKeepsRecords(proposals: seq<Proposal>, applied: seq<Application>, p: nat, changed: Proposal)
    requires KeysDistinct(proposals) && AppliedOk(proposals, applied)
    requires p < |proposals| && proposals[p].status == Pending
    requires changed.status != Approved && changed.key == proposals[p].key
    ensures KeysDistinct(proposals[p := changed]) && AppliedOk(proposals[p := changed], applied)
  {
  }

  lemma ApproveKeepsRecords(proposals: seq<Proposal>, applied: seq<Application>, p: nat)
    requires KeysDistinct(proposals) && AppliedOk(proposals, applied)
    requires p < |proposals| && proposals[p].status == Pending
    ensures var after := proposals[p := Resolved(proposals[p], Approved)];
            && KeysDistinct(after)
            && AppliedOk(after, applied + [Application(p, proposals[p].caseSlug, proposals[p].intent)])
  {
    var after := proposals[p := Resolved(proposals[p], Approved)];
    var more := applied + [Application(p, proposals[p].caseSlug, proposals[p].intent)];
    forall q | 0 <= q < |after| && after[q].status == Approved
      ensures exists k :: 0 <= k < |more| && more[k].proposal == q
    {
      if q == p {
        assert more[|applied|].proposal == p;
      } else {
        var k :| 0 <= k < |applied| && applied[k].proposal == q;
        assert more[k].proposal == q;
      }
    }
  }

  lemma EditHeldKeeps(cases: map<string, Case>, o: Office, t: nat)
    requires Inv(cases, o) && t < |o.tasks| && o.tasks[t].Edit? && o.phases[t].Holding?
    ensures Inv(cases, EditStep(o, t)) && Follows(o.desk.proposals, EditStep(o, t).desk.proposals)
  {
    var p, intent := o.tasks[t].proposal, o.tasks[t].intent;
    LetsKeepsHolders(o, t, Edited, Correction(o.desk, p, intent));
    ChangeKeepsRecords(o.desk.proposals, o.applied, p, o.desk.proposals[p].(intent := intent));
  }

  lemma EditKeeps(cases: map<string, Case>, o: Office, t: nat)
    requires Inv(cases, o) && t < |o.tasks| && o.tasks[t].Edit?
    ensures Inv(cases, EditStep(o, t)) && Follows(o.desk.proposals, EditStep(o, t).desk.proposals)
  {
    if o.phases[t].Start? && ShapeFits(o.tasks[t].intent) {
      ClaimKeeps(cases, o, t);
    } else if o.phases[t].Start? {
      MoveKeeps(cases, o, t, Ended(Invalid));
    } else if o.phases[t].Holding? {
      EditHeldKeeps(cases, o, t);
    }
  }

  lemma FoldedSnoc(cases: map<string, Case>, applied: seq<Application>, last: Application)
    requires last.caseSlug in cases && Applied(Folded(cases, applied)[last.caseSlug], last.intent).Ok?
    ensures Folded(cases, applied + [last])
            == Folded(cases, applied)[
                 last.caseSlug := Applied(Folded(cases, applied)[last.caseSlug], last.intent).value]
  {
    assert (applied + [last])[..|applied|] == applied;
  }

  lemma ApprovedCases(cases: map<string, Case>, applied: seq<Application>, d: Desk, p: nat)
    requires p < |d.proposals| && d.cases == Folded(cases, applied) && Decision(d, p, true).Ok?
    ensures var application := Application(p, d.proposals[p].caseSlug, d.proposals[p].intent);
            Decision(d, p, true).value
            == Desk(d.proposals[p := Resolved(d.proposals[p], Approved)], Folded(cases, applied + [application]))
  {
    FoldedSnoc(cases, applied, Application(p, d.proposals[p].caseSlug, d.proposals[p].intent));
  }

  lemma ApproveKeeps(cases: map<string, Case>, o: Office, t: nat, desk: Desk)
    requires Inv(cases, o) && t < |o.tasks| && o.phases[t].Holding? && o.tasks[t].Decide?
    requires var p := o.tasks[t].proposal;
             && p < |o.desk.proposals| && o.desk.proposals[p].status == Pending
             && desk.proposals == o.desk.proposals[p := Resolved(o.desk.proposals[p], Approved)]
             && desk.cases == Folded(cases, o.applied + [Application(p, o.desk.proposals[p].caseSlug,
                                                                     o.desk.proposals[p].intent)])
    ensures var p := o.tasks[t].proposal;
            Inv(cases, Lets(o, t, p, Decided).(
                  desk := desk,
                  applied := o.applied + [Application(p, o.desk.proposals[p].caseSlug, o.desk.proposals[p].intent)]))
  {
    LetsKeepsHolders(o, t, Decided, desk);
    ApproveKeepsRecords(o.desk.proposals, o.applied, o.tasks[t].proposal);
  }

  lemma RejectKeeps(cases: map<string, Case>, o: Office, t: nat)
    requires Inv(cases, o) && t < |o.tasks| && o.phases[t].Holding? && o.tasks[t].Decide? && !o.tasks[t].approve
    ensures Inv(cases, DecideStep(o, t))
  {
    var p := o.tasks[t].proposal;
    LetsKeepsHolders(o, t, Decided, Decision(o.desk, p, false).value);
    ChangeKeepsRecords(o.desk.proposals, o.applied, p, Resolved(o.desk.proposals[p], Rejected));
    assert DecideStep(o, t).applied == o.applied;
  }

  lemma DecideFollows(o: Office, t: nat)
    requires HoldersOk(o) && t < |o.tasks| && o.tasks[t].Decide?
    ensures Follows(o.desk.proposals, DecideStep(o, t).desk.proposals)
  {
  }

  lemma DecideKeeps(cases: map<string, Case>, o: Office, t: nat)
    requires Inv(cases, o) && t < |o.tasks| && o.tasks[t].Decide?
    ensures Inv(cases, DecideStep(o, t)) && Follows(o.desk.proposals, DecideStep(o, t).desk.proposals)
  {
    DecideFollows(o, t);
    if o.phases[t].Start? {
      ClaimKeeps(cases, o, t);
    } else if o.phases[t].Holding? {
      if !o.tasks[t].approve {
        RejectKeeps(cases, o, t);
      } else if Decision(o.desk, o.tasks[t].proposal, true).Ok? {
        ApprovedCases(cases, o.applied, o.desk, o.tasks[t].proposal);
        ApproveKeeps(cases, o, t, Decision(o.desk, o.tasks[t].proposal, true).value);
      } else {
        LetsKeepsHolders(o, t, NotApplied(Decision(o.desk, o.tasks[t].proposal, true).error), o.desk);
      }
    }
  }

  lemma DraftKeeps(cases: map<string, Case>, o: Office, t: nat)
    requires Inv(cases, o) && t < |o.tasks| && o.tasks[t].Draft?
    ensures Inv(cases, DraftStep(o, t)) && Follows(o.desk.proposals, DraftStep(o, t).desk.proposals)
  {
    var next := DraftStep(o, t);
    if Gate(o.tasks[t].answer, o.tasks[t].key, o.tasks[t].threshold).None? && o.phases[t].Validated? {
      InsertKeeps(cases, o, t, o.tasks[t].key, o.tasks[t].caseSlug, o.tasks[t].answer.intent);
    } else if next != o {
      MoveKeeps(cases, o, t, next.phases[t]);
    }
  }

  lemma PostKeeps(cases: map<string, Case>, o: Office, t: nat)
    requires Inv(cases, o) && t < |o.tasks| && o.tasks[t].Post?
    ensures Inv(cases, PostStep(o, t)) && Follows(o.desk.proposals, PostStep(o, t).desk.proposals)
  {
    var next := PostStep(o, t);
    if o.phases[t].Validated? {
      InsertKeeps(cases, o, t, o.tasks[t].key, o.tasks[t].caseSlug, o.tasks[t].intent);
    } else if next != o {
      MoveKeeps(cases, o, t, next.phases[t]);
    }
  }

  lemma StepKeeps(cases: map<string, Case>, o: Office, t: nat)
    requires Inv(cases, o)
    ensures Inv(cases, Step(o, t)) && Follows(o.desk.proposals, Step(o, t).desk.proposals)
  {
    if t < |o.tasks| {
      match o.tasks[t]
      case Draft(_, _, _, _) => DraftKeeps(cases, o, t);
      case Post(_, _, _, _) => PostKeeps(cases, o, t);
      case Decide(_, _) => DecideKeeps(cases, o, t);
      case Edit(_, _) => EditKeeps(cases, o, t);
    }
  }

  // ----- the replies are true -----

  /** The key and the case a task stages under. */
  predicate Stages(task: Task, key: string, caseSlug: string) {
    || (task.Draft? && task.key == key && task.caseSlug == caseSlug)
    || (task.Post? && task.key == key && task.caseSlug == caseSlug)
  }

  /** What a task's reply says of the proposals, then and ever after. */
  predicate ReplyIsTrue(task: Task, reply: Reply, proposals: seq<Proposal>) {
    match reply
    case Decided =>
      && task.Decide? && task.proposal < |proposals|
      && proposals[task.proposal].status == (if task.approve then Approved else Rejected)
    case Edited => task.Edit? && task.proposal < |proposals|
    case Conflict =>
      (task.Decide? || task.Edit?) && task.proposal < |proposals| && proposals[task.proposal].status != Pending
    case Staged(id) => id < |proposals| && Stages(task, proposals[id].key, proposals[id].caseSlug)
    case Duplicate => (task.Draft? || task.Post?) && exists p | 0 <= p < |proposals| :: proposals[p].key == task.key
    case NotApplied(_) => task.Decide? && task.approve
    case Missing => task.Decide? || task.Edit?
    case _ => task.Draft? || task.Post? || task.Edit?
  }

  ghost predicate RepliesAreTrue(o: Office) {
    && |o.phases| == |o.tasks|
    && forall t | 0 <= t < |o.tasks| && o.phases[t].Ended? ::
         ReplyIsTrue(o.tasks[t], o.phases[t].reply, o.desk.proposals)
  }

  lemma TruthStays(task: Task, reply: Reply, before: seq<Proposal>, after: seq<Proposal>)
    requires ReplyIsTrue(task, reply, before) && Follows(before, after)
    ensures ReplyIsTrue(task, reply, after)
  {
    if reply == Duplicate {
      var p :| 0 <= p < |before| && before[p].key == task.key;
      assert after[p].key == task.key;
    }
  }

  lemma InsertRepliesTruly(o: Office, t: nat, key: string, caseSlug: string, intent: Intent)
    requires t < |o.tasks| == |o.phases| && Stages(o.tasks[t], key, caseSlug)
    ensures var next := Insert(o, t, key, caseSlug, intent);
            ReplyIsTrue(o.tasks[t], next.phases[t].reply, next.desk.proposals)
  {
  }

  lemma DraftRepliesTruly(o: Office, t: nat)
    requires t < |o.tasks| == |o.phases| && o.tasks[t].Draft? && !o.phases[t].Ended?
    ensures var next := DraftStep(o, t);
            next.phases[t].Ended? ==> ReplyIsTrue(o.tasks[t], next.phases[t].reply, next.desk.proposals)
  {
    var task := o.tasks[t];
    if o.phases[t].Validated? && task.answer.Drafted? {
      InsertRepliesTruly(o, t, task.key, task.caseSlug, task.answer.intent);
    }
  }

  lemma PostRepliesTruly(o: Office, t: nat)
    requires t < |o.tasks| == |o.phases| && o.tasks[t].Post? && !o.phases[t].Ended?
    ensures var next := PostStep(o, t);
            next.phases[t].Ended? ==> ReplyIsTrue(o.tasks[t], next.phases[t].reply, next.desk.proposals)
  {
    if o.phases[t].Validated? {
      InsertRepliesTruly(o, t, o.tasks[t].key, o.tasks[t].caseSlug, o.tasks[t].intent);
    }
  }

  lemma DecideRepliesTruly(o: Office, t: nat)
    requires t < |o.tasks| == |o.phases| && o.tasks[t].Decide? && !o.phases[t].Ended?
    ensures var next := DecideStep(o, t);
            next.phases[t].Ended? ==> ReplyIsTrue(o.tasks[t], next.phases[t].reply, next.desk.proposals)
  {
  }

  lemma EditRepliesTruly(o: Office, t: nat)
    requires t < |o.tasks| == |o.phases| && o.tasks[t].Edit? && !o.phases[t].Ended?
    ensures var next := EditStep(o, t);
            next.phases[t].Ended? ==> ReplyIsTrue(o.tasks[t], next.phases[t].reply, next.desk.proposals)
  {
  }

  /** The reply a step ends its own task with. */
  lemma StepRepliesTruly(o: Office, t: nat)
    requires t < |o.tasks| == |o.phases| && !o.phases[t].Ended?
    ensures var next := Step(o, t);
            next.phases[t].Ended? ==> ReplyIsTrue(o.tasks[t], next.phases[t].reply, next.desk.proposals)
  {
    match o.tasks[t]
    case Draft(_, _, _, _) => DraftRepliesTruly(o, t);
    case Post(_, _, _, _) => PostRepliesTruly(o, t);
    case Decide(_, _) => DecideRepliesTruly(o, t);
    case Edit(_, _) => EditRepliesTruly(o, t);
  }

  lemma StepTouchesOneTask(o: Office, t: nat)
    requires |o.phases| == |o.tasks|
    ensures var next := Step(o, t);
            && |next.phases| == |next.tasks| && next.tasks == o.tasks
            && (forall u | 0 <= u < |o.tasks| && u != t :: next.phases[u] == o.phases[u])
            && (t < |o.tasks| && o.phases[t].Ended? ==> next == o)
  {
  }

  lemma StepKeepsReplies(cases: map<string, Case>, o: Office, t: nat)
    requires Inv(cases, o) && RepliesAreTrue(o)
    ensures RepliesAreTrue(Step(o, t))
  {
    var next := Step(o, t);
    StepKeeps(cases, o, t);
    StepTouchesOneTask(o, t);
    forall u | 0 <= u < |next.tasks| && next.phases[u].Ended?
      ensures ReplyIsTrue(next.tasks[u], next.phases[u].reply, next.desk.proposals)
    {
      if u == t && !o.phases[t].Ended? {
        StepRepliesTruly(o, t);
      } else {
        TruthStays(o.tasks[u], o.phases[u].reply, o.desk.proposals, next.desk.proposals);
      }
    }
  }

  // ----- a task nothing interrupts -----

  /** Three uninterrupted steps of a job result are `on_result` alone. */
  lemma UninterruptedDraft(o: Office, t: nat)
    requires t < |o.tasks| == |o.phases| && o.tasks[t].Draft? && o.phases[t].Start?
    ensures var task, end := o.tasks[t], Step(Step(Step(o, t), t), t);
            && (end.desk.proposals, end.phases[t])
               == (var r := AfterResult(o.desk.proposals, task.answer, task.key, task.caseSlug, task.threshold);
                   (r.0, Ended(r.1)))
            && end.desk.cases == o.desk.cases
  {
  }

  /** Two uninterrupted steps of a creation by hand: one pending row, or invalid and nothing. */
  lemma UninterruptedPost(o: Office, t: nat)
    requires t < |o.tasks| == |o.phases| && o.tasks[t].Post? && o.phases[t].Start?
    ensures var task, end := o.tasks[t], Step(Step(o, t), t);
            var used := exists p | 0 <= p < |o.desk.proposals| :: o.desk.proposals[p].key == task.key;
            && end.desk.cases == o.desk.cases && end.applied == o.applied
            && if ShapeFits(task.intent) && task.otherFieldsFit && !used
               then && end.phases[t] == Ended(Staged(|o.desk.proposals|))
                    && end.desk.proposals
                       == o.desk.proposals + [Proposal(task.key, task.caseSlug, task.intent, Pending)]
               else end.phases[t] == Ended(Invalid) && end.desk == o.desk
  {
  }

  /** Two uninterrupted steps of a decision on a proposal no one holds are `_decide` alone. */
  lemma UninterruptedDecision(o: Office, t: nat)
    requires t < |o.tasks| == |o.phases| && o.tasks[t].Decide? && o.phases[t].Start?
    requires o.tasks[t].proposal < |o.desk.proposals| && o.tasks[t].proposal !in o.holders
    ensures var p, end := o.tasks[t].proposal, Step(Step(o, t), t);
            && end.holders == o.holders
            && if o.desk.proposals[p].status != Pending then end.phases[t] == Ended(Conflict) && end.desk == o.desk
               else match Decision(o.desk, p, o.tasks[t].approve)
                 case Ok(desk) => end.phases[t] == Ended(Decided) && end.desk == desk
                 case Err(e) => end.phases[t] == Ended(NotApplied(e)) && end.desk == o.desk
  {
    var p := o.tasks[t].proposal;
    assert o.holders[p := t] - {p} == o.holders;
  }

  /** Two uninterrupted steps of an edit: a pending proposal that no one holds takes the new intent. */
  lemma UninterruptedEdit(o: Office, t: nat)
    requires t < |o.tasks| == |o.phases| && o.tasks[t].Edit? && o.phases[t].Start?
    requires o.tasks[t].proposal < |o.desk.proposals| && o.tasks[t].proposal !in o.holders
    ensures var p, intent, end := o.tasks[t].proposal, o.tasks[t].intent, Step(Step(o, t), t);
            && end.holders == o.holders && end.applied == o.applied && end.desk.cases == o.desk.cases
            && if !ShapeFits(intent) then end.phases[t] == Ended(Invalid) && end.desk == o.desk
               else if o.desk.proposals[p].status != Pending then end.phases[t] == Ended(Conflict) && end.desk == o.desk
               else end.phases[t] == Ended(Edited)
                    && end.desk.proposals == o.desk.proposals[p := o.desk.proposals[p].(intent := intent)]
  {
    var p := o.tasks[t].proposal;
    assert o.holders[p := t] - {p} == o.holders;
  }

  /** The insert of a validated row: the last word on a key another task has taken meanwhile. */
  lemma LateDuplicateIsCaught(o: Office, t: nat)
    requires t < |o.tasks| == |o.phases| && o.phases[t].Validated?
    requires || o.tasks[t].Post?
             || (o.tasks[t].Draft? && Gate(o.tasks[t].answer, o.tasks[t].key, o.tasks[t].threshold).None?)
    ensures var next, task := Step(o, t), o.tasks[t];
            var used := exists p | 0 <= p < |o.desk.proposals| :: o.desk.proposals[p].key == task.key;
            if used then next.phases[t] == Ended(Duplicate) && next.desk == o.desk
            else
              && next.phases[t] == Ended(Staged(|o.desk.proposals|)) && next.desk.cases == o.desk.cases
              && next.desk.proposals
                 == o.desk.proposals + [Proposal(task.key, task.caseSlug,
                                                 if task.Post? then task.intent else task.answer.intent, Pending)]
  {
  }

  /** A task whose proposal another one holds waits; one that names no proposal is told so. */
  lemma ClaimWaits(o: Office, t: nat)
    requires t < |o.tasks| == |o.phases| && o.phases[t].Start? && (o.tasks[t].Decide? || o.tasks[t].Edit?)
    requires o.tasks[t].Edit? ==> ShapeFits(o.tasks[t].intent)
    ensures o.tasks[t].proposal >= |o.desk.proposals| <==> Step(o, t).phases[t] == Ended(Missing)
    ensures Step(o, t) == o <==> o.tasks[t].proposal < |o.desk.proposals| && o.tasks[t].proposal in o.holders
  {
  }

  // ----- the theorems -----

  lemma FollowsIsTransitive(a: seq<Proposal>, b: seq<Proposal>, c: seq<Proposal>)
    requires Follows(a, b) && Follows(b, c)
    ensures Follows(a, c)
  {
  }

  /**
   In every interleaving of job results, creations, edits, approvals and rejections: a key has
   at most one proposal, a proposal leaves PENDING at most once and is never edited after, and
   its intent was applied once if it is APPROVED and never otherwise, the stored intent being
   the one applied. The cases are what those applications alone make of the initial ones.
   */
  lemma {:induction false} EachFactChangesACaseOnce(o: Office, schedule: seq<nat>)
    requires Opens(o)
    ensures Inv(o.desk.cases, Play(o, schedule))
    ensures forall k | 0 <= k <= |schedule| ::
              Follows(Play(o, schedule[..k]).desk.proposals, Play(o, schedule).desk.proposals)
  {
    if schedule == [] {
      assert Inv(o.desk.cases, o);
    } else {
      var n := |schedule| - 1;
      var front := schedule[..n];
      EachFactChangesACaseOnce(o, front);
      StepKeeps(o.desk.cases, Play(o, front), schedule[n]);
      forall k | 0 <= k <= |schedule|
        ensures Follows(Play(o, schedule[..k]).desk.proposals, Play(o, schedule).desk.proposals)
      {
        if k <= n {
          assert front[..k] == schedule[..k];
          FollowsIsTransitive(Play(o, schedule[..k]).desk.proposals, Play(o, front).desk.proposals,
                              Play(o, schedule).desk.proposals);
        } else {
          assert schedule[..k] == schedule;
        }
      }
    }
  }

  /**
   Over every interleaving each reply is true of the proposals for good: a decision answered
   Decided left its proposal APPROVED or REJECTED as asked, a conflict met a decided one, a
   staged row is there under the task's key and case, a duplicate's key is taken.
   */
  lemma {:induction false} EveryReplyIsTrue(o: Office, schedule: seq<nat>)
    requires Opens(o)
    ensures RepliesAreTrue(Play(o, schedule))
  {
    if schedule != [] {
      var front := schedule[..|schedule| - 1];
      EachFactChangesACaseOnce(o, front);
      EveryReplyIsTrue(o, front);
      StepKeepsReplies(o.desk.cases, Play(o, front), schedule[|schedule| - 1]);
    }
  }

  /** A fact whose rejection was answered Decided is never applied, by any task at any time. */
  lemma RejectedFactIsNeverApplied(o: Office, schedule: seq<nat>, t: nat)
    requires Opens(o) && t < |o.tasks| && o.tasks[t].Decide? && !o.tasks[t].approve
    requires Play(o, schedule).phases[t] == Ended(Decided)
    ensures var end, p := Play(o, schedule), o.tasks[t].proposal;
            && p < |end.desk.proposals| && end.desk.proposals[p].status == Rejected
            && forall a | 0 <= a < |end.applied| ::
                 && end.applied[a].proposal < |end.desk.proposals|
                 && end.desk.proposals[end.applied[a].proposal].key != end.desk.proposals[p].key
  {
    EveryReplyIsTrue(o, schedule);
    assert ReplyIsTrue(o.tasks[t], Decided, Play(o, schedule).desk.proposals);
    EachFactChangesACaseOnce(o, schedule);
    UnapprovedIsNotApplied(Play(o, schedule).desk.proposals, Play(o, schedule).applied, o.tasks[t].proposal);
  }

  lemma UnapprovedIsNotApplied(proposals: seq<Proposal>, applied: seq<Application>, p: nat)
    requires KeysDistinct(proposals) && AppliedOk(proposals, applied)
    requires p < |proposals| && proposals[p].status != Approved
    ensures forall a | 0 <= a < |applied| ::
              && applied[a].proposal < |proposals|
              && proposals[applied[a].proposal].key != proposals[p].key
  {
  }

  /** Two applied intents never come from the same fact. */
  lemma FactAppliedAtMostOnce(o: Office, schedule: seq<nat>, k: nat, l: nat)
    requires Opens(o) && k < l < |Play(o, schedule).applied|
    ensures var end := Play(o, schedule);
            && end.applied[k].proposal < |end.desk.proposals| && end.applied[l].proposal < |end.desk.proposals|
            && end.desk.proposals[end.applied[k].proposal].key != end.desk.proposals[end.applied[l].proposal].key
  {
    EachFactChangesACaseOnce(o, schedule);
  }

  /** The entries approved for a case, in decision order. */
  function EntriesFor(applied: seq<Application>, caseSlug: string): seq<string> {
    if applied == [] then []
    else
      var last := applied[|applied| - 1];
      EntriesFor(applied[..|applied| - 1], caseSlug)
      + if last.caseSlug == caseSlug && last.intent.AppendTimeline? && last.intent.entry.Some?
        then [last.intent.entry.value] else []
  }

  lemma {:induction false} AppendsFold(cases: map<string, Case>, applied: seq<Application>, caseSlug: string)
    requires caseSlug in cases
    requires forall k | 0 <= k < |applied| :: applied[k].intent.AppendTimeline?
    ensures Folded(cases, applied)[caseSlug].row.timeline
            == cases[caseSlug].row.timeline + EntriesFor(applied, caseSlug)
  {
    if applied != [] {
      AppendsFold(cases, applied[..|applied| - 1], caseSlug);
    }
  }

  /** With append intents only, a timeline is the initial one, then the entries as approved. */
  lemma TimelineInDecisionOrder(o: Office, schedule: seq<nat>, caseSlug: string)
    requires Opens(o) && caseSlug in o.desk.cases
    requires forall k | 0 <= k < |Play(o, schedule).applied| :: Play(o, schedule).applied[k].intent.AppendTimeline?
    ensures caseSlug in Play(o, schedule).desk.cases
    ensures Play(o, schedule).desk.cases[caseSlug].row.timeline
            == o.desk.cases[caseSlug].row.timeline + EntriesFor(Play(o, schedule).applied, caseSlug)
  {
    EachFactChangesACaseOnce(o, schedule);
    AppendsFold(o.desk.cases, Play(o, schedule).applied, caseSlug);
  }

  /** A rejection is sticky: no later insert with its key succeeds. */
  lemma RejectionIsSticky(o: Office, schedule: seq<nat>, k: nat, p: nat)
    requires Opens(o) && k <= |schedule| && p < |Play(o, schedule[..k]).desk.proposals|
    requires Play(o, schedule[..k]).desk.proposals[p].status == Rejected
    ensures var before, end := Play(o, schedule[..k]), Play(o, schedule);
            && p < |end.desk.proposals| && end.desk.proposals[p] == before.desk.proposals[p]
            && (forall q | 0 <= q < |end.desk.proposals| && q != p ::
                  end.desk.proposals[q].key != before.desk.proposals[p].key)
            && (forall a | 0 <= a < |end.applied| :: end.applied[a].proposal != p)
  {
    EachFactChangesACaseOnce(o, schedule);
  }
}
