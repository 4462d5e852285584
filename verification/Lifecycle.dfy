/**
 The lifecycle of a case (`Case.status`), derived on read from its stages and the verdicts of
 its accused, against the stored dates and against the verdicts a proposal may set.
 */
module Lifecycle {
  import opened Common
  import opened Stages
  import opened Cases
  import opened CaseLaws

  datatype Status = Overridden(override: Override) | Ongoing | UnderInvestigation | Concluded | Others

  predicate HasAccused(binds: seq<Bind>) {
    exists b :: b in binds && b.role == Accused
  }

  predicate AnyRemanded(binds: seq<Bind>) {
    exists b :: b in binds && b.role == Accused && b.outcome == Some(Remanded)
  }

  /** Every accused carries a final verdict; a missing one is not final. */
  predicate AllTerminal(binds: seq<Bind>) {
    forall b | b in binds && b.role == Accused :: b.outcome.Some? && b.outcome.value in TERMINAL_OUTCOMES
  }

  predicate OpenInvestigation(stages: seq<Stage>) {
    exists s :: s in stages && s.Stage? && s.kind == INVESTIGATION && s.end == ""
  }

  /** `Case.status`, rule by rule. */
  function StatusOf(row: Row, binds: seq<Bind>): Status {
    if row.statusOverride.Some? then Overridden(row.statusOverride.value)
    else if HasOpenCourtStage(row.stages) then Ongoing
    else if AnyRemanded(binds) then Ongoing
    else if HasCourtStage(row.stages) && HasAccused(binds) && AllTerminal(binds) then Concluded
    else if !HasCourtStage(row.stages) && OpenInvestigation(row.stages) then UnderInvestigation
    else Others
  }

  /** Some accused is remanded. */
  predicate RemandedAccused(binds: seq<Bind>) {
    exists i | 0 <= i < |binds| :: binds[i].role == Accused && binds[i].outcome == Some(Remanded)
  }

  /** Every accused is convicted, acquitted or abated, and there is one. */
  predicate AllDecided(binds: seq<Bind>) {
    && (exists i | 0 <= i < |binds| :: binds[i].role == Accused)
    && forall i | 0 <= i < |binds| && binds[i].role == Accused ::
         binds[i].outcome in {Some(Convicted), Some(Acquitted), Some(Abated)}
  }

  /** A record of one of the kinds; `onlyOpen` asks for one without an end. */
  predicate HasRecord(stages: seq<Stage>, kinds: set<string>, onlyOpen: bool) {
    exists i | 0 <= i < |stages| :: stages[i].Stage? && stages[i].kind in kinds && (onlyOpen ==> stages[i].end == "")
  }

  /**
   The status, answer by answer, read off the records and the binds: an override wins; a court
   stage still open or an accused remanded is ongoing; closed court stages are concluded once
   every accused has a final verdict; without a court stage an open investigation is one; the
   rest are others.
   */
  lemma StatusExactly(row: Row, binds: seq<Bind>)
    ensures var status := StatusOf(row, binds);
            var court, open := HasRecord(row.stages, {"initial", "appeal", "review"}, false),
                               HasRecord(row.stages, {"initial", "appeal", "review"}, true);
            var ongoing := open || RemandedAccused(binds);
            if row.statusOverride.Some? then status == Overridden(row.statusOverride.value)
            else
              && (status == Ongoing <==> ongoing)
              && (status == Concluded <==> !ongoing && court && AllDecided(binds))
              && (status == UnderInvestigation <==>
                    !ongoing && !court && HasRecord(row.stages, {"investigation"}, true))
              && status in {Ongoing, Concluded, UnderInvestigation, Others}
  {
    RecordsAreRead(row.stages);
    BindsAreRead(binds);
  }

  lemma RecordsAreRead(stages: seq<Stage>)
    ensures HasCourtStage(stages) <==> HasRecord(stages, {"initial", "appeal", "review"}, false)
    ensures HasOpenCourtStage(stages) <==> HasRecord(stages, {"initial", "appeal", "review"}, true)
    ensures OpenInvestigation(stages) <==> HasRecord(stages, {"investigation"}, true)
  {
    assert COURT_STAGES == {"initial", "appeal", "review"};
    assert forall i | 0 <= i < |stages| :: stages[i] in stages;
    assert forall s | s in stages :: exists i | 0 <= i < |stages| :: stages[i] == s;
  }

  lemma BindsAreRead(binds: seq<Bind>)
    ensures AnyRemanded(binds) <==> RemandedAccused(binds)
    ensures HasAccused(binds) && AllTerminal(binds) <==> AllDecided(binds)
  {
    assert TERMINAL_OUTCOMES == {Convicted, Acquitted, Abated};
    assert forall i | 0 <= i < |binds| :: binds[i] in binds;
    assert forall b | b in binds :: exists i | 0 <= i < |binds| :: binds[i] == b;
  }

  lemma ConcludedExactly(row: Row, binds: seq<Bind>)
    requires row.statusOverride == None
    ensures StatusOf(row, binds) == Concluded
            <==> HasCourtStage(row.stages) && !HasOpenCourtStage(row.stages) && HasAccused(binds) && AllTerminal(binds)
  {
  }

  /** What the two stored dates say of the stages. */
  lemma StoredDates(c: Case)
    requires DatesConsistent(c)
    ensures c.row.decided == None <==> !HasCourtStage(c.row.stages) || HasOpenCourtStage(c.row.stages)
    ensures !HasCourtStage(c.row.stages) ==> c.row.started == None && c.row.decided == None
    ensures c.row.started.Some? && c.row.decided.Some? ==> c.row.started.value <= c.row.decided.value
  {
    DerivedDatesOfValidStages(c.row.stages, Some(set iri | iri in c.courtCases));
  }

  /**
   Without an override the lifecycle and the stored dates of a case agree: concluded exactly
   when a decided date is stored and every accused has a final verdict; under investigation
   only with both dates empty; an open court stage always reads as ongoing and undecided.
   */
  lemma StatusAgreesWithDates(c: Case)
    requires DatesConsistent(c) && c.row.statusOverride == None
    ensures StatusOf(c.row, c.binds) == Concluded
            <==> c.row.decided.Some? && HasAccused(c.binds) && AllTerminal(c.binds)
    ensures StatusOf(c.row, c.binds) == UnderInvestigation
            ==> c.row.started == None && c.row.decided == None
    ensures HasOpenCourtStage(c.row.stages)
            ==> StatusOf(c.row, c.binds) == Ongoing && c.row.decided == None
    ensures c.row.decided == None <==> !HasCourtStage(c.row.stages) || HasOpenCourtStage(c.row.stages)
    ensures c.row.started.Some? && c.row.decided.Some? ==> c.row.started.value <= c.row.decided.value
  {
    StoredDates(c);
    ConcludedExactly(c.row, c.binds);
  }

  // ----- verdicts set by proposals -----

  /** The verdict the entries list for an entity: its last one. */
  function LastListed(outcomes: seq<(string, Outcome)>, nesId: string): Option<Outcome> {
    if outcomes == [] then None
    else
      var (id, outcome) := outcomes[|outcomes| - 1];
      if id == nesId then Some(outcome) else LastListed(outcomes[..|outcomes| - 1], nesId)
  }

  lemma {:induction false} BindOfIsLast(binds: seq<Bind>, nesId: string)
    ensures BindOf(binds, nesId) == None <==> forall b | b in binds :: b.nesId != nesId
    ensures BindOf(binds, nesId).Some? ==>
              forall i | BindOf(binds, nesId).value < i < |binds| :: binds[i].nesId != nesId
  {
    if binds != [] {
      BindOfIsLast(binds[..|binds| - 1], nesId);
    }
  }

  /** A write reaches the bind an entity resolves to, and no other. */
  lemma {:induction false} OutcomesWrittenExactly(binds: seq<Bind>, outcomes: seq<(string, Outcome)>)
    ensures forall i | 0 <= i < |binds| ::
              OutcomesWritten(binds, outcomes)[i].outcome
              == if BindOf(binds, binds[i].nesId) == Some(i) && LastListed(outcomes, binds[i].nesId).Some?
                 then LastListed(outcomes, binds[i].nesId) else binds[i].outcome
  {
    if outcomes != [] {
      OutcomesWrittenExactly(binds, outcomes[..|outcomes| - 1]);
      var nesId := outcomes[|outcomes| - 1].0;
      BindOfIsLast(binds, nesId);
    }
  }

  lemma {:induction false} FirstFaultIsExact(binds: seq<Bind>, outcomes: seq<(string, Outcome)>)
    ensures FirstFault(binds, outcomes) == None
            <==> forall entry | entry in outcomes :: EntryFault(binds, entry) == None
  {
    if outcomes != [] {
      FirstFaultIsExact(binds, outcomes[..|outcomes| - 1]);
      var last := outcomes[|outcomes| - 1];
      assert forall e :: e in outcomes <==> e in outcomes[..|outcomes| - 1] || e == last;
    }
  }

  /**
   Setting verdicts is all or nothing: it is accepted exactly when there is an entry and every
   entry names a final verdict for a bound accused; then every listed accused has its listed
   verdict and every other bind is as it was; otherwise nothing changes.
   */
  lemma SetOutcomesIsAllOrNothing(c: Case, outcomes: seq<(string, Outcome)>)
    ensures var r := Applied(c, SetOutcomes(outcomes));
            && (r.Ok? <==> && outcomes != []
                           && forall e | e in outcomes ::
                                && e.0 != "" && e.1 in TERMINAL_OUTCOMES && BindOf(c.binds, e.0).Some?
                                && c.binds[BindOf(c.binds, e.0).value].role == Accused)
            && (r.Ok? ==> && |r.value.binds| == |c.binds|
                          && forall i | 0 <= i < |c.binds| ::
                               r.value.binds[i] == c.binds[i].(
                                 outcome := if BindOf(c.binds, c.binds[i].nesId) == Some(i)
                                               && LastListed(outcomes, c.binds[i].nesId).Some?
                                            then LastListed(outcomes, c.binds[i].nesId)
                                            else c.binds[i].outcome))
            && (r.Err? ==> After(c, Approve(SetOutcomes(outcomes))) == c)
  {
    FirstFaultIsExact(c.binds, outcomes);
    OutcomesWrittenExactly(c.binds, outcomes);
    if Applied(c, SetOutcomes(outcomes)).Ok? {
      var after := Applied(c, SetOutcomes(outcomes)).value;
      assert after.binds == OutcomesWritten(c.binds, outcomes);
    }
  }

  /** Every bind of `before` with a final verdict still has one in `after`. */
  predicate TerminalKept(before: seq<Bind>, after: seq<Bind>) {
    && |before| == |after|
    && forall i | 0 <= i < |before| ::
         && after[i] == before[i].(outcome := after[i].outcome)
         && (after[i].outcome == before[i].outcome
             || (after[i].role == Accused && after[i].outcome.Some? && after[i].outcome.value in TERMINAL_OUTCOMES))
  }

  lemma {:induction false} LastListedIsListed(outcomes: seq<(string, Outcome)>, nesId: string)
    requires LastListed(outcomes, nesId).Some?
    ensures (nesId, LastListed(outcomes, nesId).value) in outcomes
  {
    if outcomes[|outcomes| - 1].0 != nesId {
      LastListedIsListed(outcomes[..|outcomes| - 1], nesId);
    }
  }

  lemma IntentKeepsTerminal(c: Case, intent: Intent)
    ensures TerminalKept(c.binds, After(c, Approve(intent)).binds)
  {
    if intent.SetOutcomes? && Applied(c, intent).Ok? {
      SetOutcomesIsAllOrNothing(c, intent.outcomes);
      var after := Applied(c, intent).value;
      forall i | 0 <= i < |c.binds| && after.binds[i].outcome != c.binds[i].outcome
        ensures after.binds[i].role == Accused && after.binds[i].outcome.Some?
                && after.binds[i].outcome.value in TERMINAL_OUTCOMES
      {
        LastListedIsListed(intent.outcomes, c.binds[i].nesId);
        assert (c.binds[i].nesId, after.binds[i].outcome.value) in intent.outcomes;
      }
    } else if Applied(c, intent).Ok? {
      IntentsReachOnly(c, intent);
    }
  }

  lemma TerminalKeptIsTransitive(a: seq<Bind>, b: seq<Bind>, c: seq<Bind>)
    requires TerminalKept(a, b) && TerminalKept(b, c)
    ensures TerminalKept(a, c)
  {
  }

  /** A case reads as concluded after a change of verdicts to final ones if it did before. */
  lemma TerminalKeptKeepsConcluded(c: Case, d: Case)
    requires TerminalKept(c.binds, d.binds)
    requires d.row.stages == c.row.stages && d.row.statusOverride == c.row.statusOverride
    requires StatusOf(c.row, c.binds) == Concluded
    ensures StatusOf(d.row, d.binds) == Concluded
  {
    var b :| b in c.binds && b.role == Accused;
    var i :| 0 <= i < |c.binds| && c.binds[i] == b;
    assert d.binds[i] in d.binds && d.binds[i].role == Accused;
    forall x | x in d.binds && x.role == Accused
      ensures x.outcome.Some? && x.outcome.value in TERMINAL_OUTCOMES
    {
      var j :| 0 <= j < |d.binds| && d.binds[j] == x;
      assert c.binds[j] in c.binds;
    }
  }

  /**
   Over any run of approvals no bind leaves the final verdicts, and a concluded case stays
   concluded.
   */
  lemma {:induction false} ApprovalsKeepVerdicts(c: Case, actions: seq<Action>)
    requires forall i | 0 <= i < |actions| :: actions[i].Approve?
    ensures TerminalKept(c.binds, Run(c, actions).binds)
    ensures StatusOf(c.row, c.binds) == Concluded
            ==> StatusOf(Run(c, actions).row, Run(c, actions).binds) == Concluded
  {
    if actions != [] {
      var n := |actions| - 1;
      var before := Run(c, actions[..n]);
      ApprovalsKeepVerdicts(c, actions[..n]);
      IntentKeepsTerminal(before, actions[n].intent);
      TerminalKeptIsTransitive(c.binds, before.binds, Run(c, actions).binds);
      if Applied(before, actions[n].intent).Ok? {
        IntentsReachOnly(before, actions[n].intent);
      }
      if StatusOf(c.row, c.binds) == Concluded {
        TerminalKeptKeepsConcluded(before, Run(c, actions));
      }
    }
  }
}
