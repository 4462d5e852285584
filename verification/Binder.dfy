/**
 The evidence binder and its batch selector (casework/bind_materials.py, common/evidence.py,
 select_batch.py). PATCH /evidence replaces the whole list, so what the binder sends must hold
 everything that was there.

 A probe of a material, and a GET of a case, are functions: what they answer during one plan.
 */
module Binder {
  import opened Common
  import opened Cases
  import opened CaseLaws
  import opened Serializability

  const MATERIAL_HOST := "https://jawafdehi.org"
  const EVIDENCE_PATH := "/evidence"

  datatype Candidate = Candidate(source: string, ident: string)

  function IriOf(c: Candidate): (iri: string)
    ensures iri != ""
  {
    MATERIAL_HOST + "/material/" + c.source + "/" + c.ident
  }

  datatype Verdict = Exists | Absent | Uncertain

  // ----- lists without repeats -----

  lemma FirstsSnoc<T(!new)>(s: seq<T>, x: T)
    ensures Firsts(s + [x]) == if x in s then Firsts(s) else Firsts(s) + [x]
  {
    assert (s + [x])[..|s|] == s;
  }

  /** The present entries of a list. */
  function Present<T>(s: seq<Option<T>>): seq<T> {
    if s == [] then []
    else Present(s[..|s| - 1]) + if s[|s| - 1].Some? then [s[|s| - 1].value] else []
  }

  lemma PresentSnoc<T>(s: seq<Option<T>>, i: nat)
    requires i < |s|
    ensures Present(s[..i + 1]) == if s[i].Some? then Present(s[..i]) + [s[i].value] else Present(s[..i])
  {
    assert s[..i + 1][..i] == s[..i];
  }

  /** `candidates_from_row`: what the tokens of a row parse to, first seen first. */
  method CandidatesFromRow(tokens: seq<Option<Candidate>>) returns (out: seq<Candidate>)
    ensures out == Firsts(Present(tokens))
  {
    out := [];
    var seen: set<Candidate> := {};
    for i := 0 to |tokens|
      invariant out == Firsts(Present(tokens[..i]))
      invariant forall c :: c in seen <==> c in out
    {
      PresentSnoc(tokens, i);
      if tokens[i].Some? {
        FirstsSnoc(Present(tokens[..i]), tokens[i].value);
        FirstsKeep(Present(tokens[..i]));
        if tokens[i].value !in seen {
          seen := seen + {tokens[i].value};
          out := out + [tokens[i].value];
        }
      }
    }
    assert tokens[..|tokens|] == tokens;
  }

  // ----- the evidence list -----

  /** `current_evidence`: rows without an IRI are not evidence. */
  function CurrentEvidence(evidence: seq<Evidence>): (items: seq<EvidenceItem>)
    ensures forall item | item in items :: item.iri != ""
  {
    if evidence == [] then []
    else
      var last := evidence[|evidence| - 1];
      CurrentEvidence(evidence[..|evidence| - 1])
      + if last.iri != "" then [EvidenceItem(last.iri, last.details)] else []
  }

  predicate Bound(items: seq<EvidenceItem>, iri: string) {
    exists i | 0 <= i < |items| :: items[i].iri == iri
  }

  /** The additions `merge_evidence` appends: those whose IRI is not there yet. */
  function Appended(current: seq<EvidenceItem>, additions: seq<EvidenceItem>): seq<EvidenceItem> {
    if additions == [] then []
    else
      var front := Appended(current, additions[..|additions| - 1]);
      var last := additions[|additions| - 1];
      if Bound(current, last.iri) || Bound(front, last.iri) then front else front + [last]
  }

  method MergeEvidence(current: seq<EvidenceItem>, additions: seq<EvidenceItem>) returns (merged: seq<EvidenceItem>)
    ensures merged == current + Appended(current, additions)
  {
    var have := set item | item in current :: item.iri;
    merged := current;
    for i := 0 to |additions|
      invariant merged == current + Appended(current, additions[..i])
      invariant forall iri :: iri in have <==> Bound(current, iri) || Bound(Appended(current, additions[..i]), iri)
    {
      assert additions[..i + 1][..i] == additions[..i];
      if additions[i].iri !in have {
        BoundSnoc(Appended(current, additions[..i]), additions[i]);
        merged := merged + [additions[i]];
        have := have + {additions[i].iri};
      }
    }
    assert additions[..|additions|] == additions;
  }

  lemma BoundSnoc(items: seq<EvidenceItem>, item: EvidenceItem)
    ensures forall iri :: Bound(items + [item], iri) <==> Bound(items, iri) || iri == item.iri
  {
    var longer := items + [item];
    forall iri | Bound(items, iri) || iri == item.iri
      ensures Bound(longer, iri)
    {
      if iri == item.iri {
        assert longer[|items|].iri == iri;
      } else {
        var i :| 0 <= i < |items| && items[i].iri == iri;
        assert longer[i].iri == iri;
      }
    }
  }

  /** What is appended is new, without repeats, and completes the additions. */
  lemma {:induction false} AppendedIsWhatWasMissing(current: seq<EvidenceItem>, additions: seq<EvidenceItem>)
    ensures DistinctEvidence(Appended(current, additions))
    ensures forall item | item in Appended(current, additions) :: item in additions && !Bound(current, item.iri)
    ensures forall item | item in additions :: Bound(current, item.iri) || Bound(Appended(current, additions), item.iri)
  {
    if additions != [] {
      var front, last := additions[..|additions| - 1], additions[|additions| - 1];
      AppendedIsWhatWasMissing(current, front);
      BoundSnoc(Appended(current, front), last);
      assert forall item :: item in additions <==> item in front || item == last;
    }
  }

  // ----- one plan -----

  datatype Action = SkipState | AbortUncertain | Noop | WouldPatch

  /** `items` is the full list a WOULD_PATCH sends; `probes` are the probes made, in order. */
  datatype BindPlan = BindPlan(
    action: Action,
    ifMatch: Option<nat>,
    probes: seq<(Candidate, Verdict)>,
    added: seq<string>,
    dropped: seq<string>,
    uncertain: seq<string>,
    items: seq<EvidenceItem>)

  /** `missing_candidates`: what still needs binding, for the selector and the binder alike. */
  function MissingCandidates(current: seq<EvidenceItem>, candidates: seq<Candidate>): seq<Candidate> {
    if candidates == [] then []
    else
      var last := candidates[|candidates| - 1];
      MissingCandidates(current, candidates[..|candidates| - 1])
      + if Bound(current, IriOf(last)) then [] else [last]
  }

  function Probes(missing: seq<Candidate>, probe: Candidate -> Verdict): seq<(Candidate, Verdict)> {
    seq(|missing|, i requires 0 <= i < |missing| => (missing[i], probe(missing[i])))
  }

  /** The IRIs of the candidates a probe answers so for, in order. */
  function IrisWith(missing: seq<Candidate>, probe: Candidate -> Verdict, v: Verdict): seq<string> {
    if missing == [] then []
    else
      var last := missing[|missing| - 1];
      IrisWith(missing[..|missing| - 1], probe, v) + if probe(last) == v then [IriOf(last)] else []
  }

  lemma {:induction false} MissingExactly(current: seq<EvidenceItem>, candidates: seq<Candidate>)
    ensures forall c :: c in MissingCandidates(current, candidates)
                        <==> c in candidates && !Bound(current, IriOf(c))
  {
    if candidates != [] {
      MissingExactly(current, candidates[..|candidates| - 1]);
    }
  }

  lemma {:induction false} IrisExactly(missing: seq<Candidate>, probe: Candidate -> Verdict, v: Verdict)
    ensures forall iri :: iri in IrisWith(missing, probe, v)
                          <==> exists c :: c in missing && probe(c) == v && IriOf(c) == iri
  {
    if missing != [] {
      IrisExactly(missing[..|missing| - 1], probe, v);
      assert forall c :: c in missing <==> c in missing[..|missing| - 1] || c == missing[|missing| - 1];
    }
  }

  function Unnoted(iris: seq<string>): (items: seq<EvidenceItem>)
    ensures |items| == |iris|
  {
    seq(|iris|, i requires 0 <= i < |iris| => EvidenceItem(iris[i], ""))
  }

  function Planned(
    state: State, evidence: seq<Evidence>, etag: Option<nat>, candidates: seq<Candidate>, probe: Candidate -> Verdict)
    : BindPlan
  {
    var current := CurrentEvidence(evidence);
    var missing := MissingCandidates(current, candidates);
    var added := Firsts(IrisWith(missing, probe, Exists));
    var dropped, uncertain := IrisWith(missing, probe, Absent), IrisWith(missing, probe, Uncertain);
    if state != Draft then BindPlan(SkipState, None, [], [], [], [], [])
    else if uncertain != [] then BindPlan(AbortUncertain, etag, Probes(missing, probe), [], dropped, uncertain, [])
    else if added == [] then BindPlan(Noop, etag, Probes(missing, probe), [], dropped, [], [])
    else BindPlan(WouldPatch, etag, Probes(missing, probe), added, dropped, [], current + Unnoted(added))
  }

  lemma {:induction false} FreshAreAllAppended(current: seq<EvidenceItem>, additions: seq<EvidenceItem>)
    requires DistinctEvidence(additions) && forall item | item in additions :: !Bound(current, item.iri)
    ensures Appended(current, additions) == additions
  {
    if additions != [] {
      FreshAreAllAppended(current, additions[..|additions| - 1]);
    }
  }

  lemma AddedAreFresh(current: seq<EvidenceItem>, candidates: seq<Candidate>, probe: Candidate -> Verdict)
    ensures var added := Unnoted(Firsts(IrisWith(MissingCandidates(current, candidates), probe, Exists)));
            Appended(current, added) == added
  {
    var missing := MissingCandidates(current, candidates);
    MissingExactly(current, candidates);
    IrisExactly(missing, probe, Exists);
    var iris := Firsts(IrisWith(missing, probe, Exists));
    FirstsKeep(IrisWith(missing, probe, Exists));
    forall item | item in Unnoted(iris)
      ensures !Bound(current, item.iri)
    {
      assert item.iri in iris;
    }
    FreshAreAllAppended(current, Unnoted(iris));
  }

  lemma MissingSnoc(current: seq<EvidenceItem>, candidates: seq<Candidate>, i: nat)
    requires i < |candidates|
    ensures MissingCandidates(current, candidates[..i + 1])
            == MissingCandidates(current, candidates[..i])
               + if Bound(current, IriOf(candidates[i])) then [] else [candidates[i]]
  {
    assert candidates[..i + 1][..i] == candidates[..i];
  }

  lemma IrisSnoc(missing: seq<Candidate>, c: Candidate, probe: Candidate -> Verdict, v: Verdict)
    ensures IrisWith(missing + [c], probe, v)
            == if probe(c) == v then IrisWith(missing, probe, v) + [IriOf(c)] else IrisWith(missing, probe, v)
  {
    assert (missing + [c])[..|missing|] == missing;
  }

  /** What one more missing candidate adds to each list of a plan. */
  lemma PlanSnoc(missing: seq<Candidate>, c: Candidate, probe: Candidate -> Verdict)
    ensures Probes(missing + [c], probe) == Probes(missing, probe) + [(c, probe(c))]
    ensures IrisWith(missing + [c], probe, Absent)
            == if probe(c) == Absent then IrisWith(missing, probe, Absent) + [IriOf(c)]
               else IrisWith(missing, probe, Absent)
    ensures IrisWith(missing + [c], probe, Uncertain)
            == if probe(c) == Uncertain then IrisWith(missing, probe, Uncertain) + [IriOf(c)]
               else IrisWith(missing, probe, Uncertain)
  {
    IrisSnoc(missing, c, probe, Absent);
    IrisSnoc(missing, c, probe, Uncertain);
  }

  lemma AddedSnoc(missing: seq<Candidate>, c: Candidate, probe: Candidate -> Verdict)
    ensures var added := Firsts(IrisWith(missing, probe, Exists));
            Firsts(IrisWith(missing + [c], probe, Exists))
            == if probe(c) == Exists && IriOf(c) !in added then added + [IriOf(c)] else added
  {
    IrisSnoc(missing, c, probe, Exists);
    FirstsSnoc(IrisWith(missing, probe, Exists), IriOf(c));
    FirstsKeep(IrisWith(missing, probe, Exists));
  }

  /** The four lists of the probes made so far. */
  predicate Probed(
    missing: seq<Candidate>, probe: Candidate -> Verdict,
    probes: seq<(Candidate, Verdict)>, add: seq<string>, dropped: seq<string>, uncertain: seq<string>)
  {
    && probes == Probes(missing, probe)
    && add == Firsts(IrisWith(missing, probe, Exists))
    && dropped == IrisWith(missing, probe, Absent)
    && uncertain == IrisWith(missing, probe, Uncertain)
  }

  lemma ProbedSnoc(
    missing: seq<Candidate>, c: Candidate, probe: Candidate -> Verdict,
    probes: seq<(Candidate, Verdict)>, add: seq<string>, dropped: seq<string>, uncertain: seq<string>)
    requires Probed(missing, probe, probes, add, dropped, uncertain)
    ensures Probed(missing + [c], probe, probes + [(c, probe(c))],
                   if probe(c) == Exists && IriOf(c) !in add then add + [IriOf(c)] else add,
                   if probe(c) == Absent then dropped + [IriOf(c)] else dropped,
                   if probe(c) == Uncertain then uncertain + [IriOf(c)] else uncertain)
  {
    PlanSnoc(missing, c, probe);
    AddedSnoc(missing, c, probe);
  }

  /** The probing loop of `plan_case`. */
  method ProbeMissing(current: seq<EvidenceItem>, candidates: seq<Candidate>, probe: Candidate -> Verdict)
    returns (probes: seq<(Candidate, Verdict)>, add: seq<string>, dropped: seq<string>, uncertain: seq<string>)
    ensures var missing := MissingCandidates(current, candidates);
            Probed(missing, probe, probes, add, dropped, uncertain)
  {
    var have := set item | item in current :: item.iri;
    probes, add, dropped, uncertain := [], [], [], [];
    ghost var missing: seq<Candidate> := [];
    for i := 0 to |candidates|
      invariant missing == MissingCandidates(current, candidates[..i])
      invariant Probed(missing, probe, probes, add, dropped, uncertain)
    {
      MissingSnoc(current, candidates, i);
      var iri := IriOf(candidates[i]);
      assert iri in have <==> Bound(current, iri);
      if iri !in have {
        ProbedSnoc(missing, candidates[i], probe, probes, add, dropped, uncertain);
        var verdict := probe(candidates[i]);
        probes := probes + [(candidates[i], verdict)];
        match verdict {
          case Exists =>
            if iri !in add {
              add := add + [iri];
            }
          case Absent => dropped := dropped + [iri];
          case Uncertain => uncertain := uncertain + [iri];
        }
        missing := missing + [candidates[i]];
      }
    }
    assert candidates[..|candidates|] == candidates;
  }

  /** `plan_case`: the state guard, one probe per missing candidate, the merge. */
  method PlanCase(
    state: State, evidence: seq<Evidence>, etag: Option<nat>, candidates: seq<Candidate>, probe: Candidate -> Verdict)
    returns (plan: BindPlan)
    ensures plan == Planned(state, evidence, etag, candidates, probe)
  {
    if state != Draft {
      return BindPlan(SkipState, None, [], [], [], [], []);
    }
    var current := CurrentEvidence(evidence);
    var probes, add, dropped, uncertain := ProbeMissing(current, candidates, probe);
    if uncertain != [] {
      return BindPlan(AbortUncertain, etag, probes, [], dropped, uncertain, []);
    }
    AddedAreFresh(current, candidates, probe);
    var merged := MergeEvidence(current, Unnoted(add));
    if merged == current {
      return BindPlan(Noop, etag, probes, [], dropped, [], []);
    }
    return BindPlan(WouldPatch, etag, probes, add, dropped, [], merged);
  }

  /** What `apply_plan` sends; None when it raises. */
  method ApplyPlan(plan: BindPlan) returns (sent: Option<(nat, seq<EvidenceItem>)>)
    ensures sent == if plan.action == WouldPatch && plan.ifMatch.Some?
                    then Some((plan.ifMatch.value, plan.items)) else None
  {
    if plan.action != WouldPatch {
      return None;
    }
    if plan.ifMatch == None {
      return None;
    }
    return Some((plan.ifMatch.value, plan.items));
  }

  // ----- what a plan promises -----

  lemma {:induction false} NoIriWith(missing: seq<Candidate>, probe: Candidate -> Verdict, v: Verdict)
    ensures IrisWith(missing, probe, v) == [] <==> forall c | c in missing :: probe(c) != v
    ensures Firsts(IrisWith(missing, probe, v)) == [] <==> forall c | c in missing :: probe(c) != v
  {
    var iris := IrisWith(missing, probe, v);
    IrisExactly(missing, probe, v);
    FirstsKeep(iris);
    if c :| c in missing && probe(c) == v {
      assert IriOf(c) in iris && IriOf(c) in Firsts(iris);
    }
    if iris != [] {
      assert iris[0] in iris && iris[0] in Firsts(iris);
    }
    if Firsts(iris) != [] {
      assert Firsts(iris)[0] in iris;
    }
  }

  /**
   A write is planned exactly for a draft, when no missing candidate is uncertain and one at
   least exists. It holds the current rows in order, then exactly the verified missing
   candidates, new, without repeats and with no note.
   */
  lemma PlanLosesNothing(
    state: State, evidence: seq<Evidence>, etag: Option<nat>, candidates: seq<Candidate>, probe: Candidate -> Verdict)
    ensures var plan, current := Planned(state, evidence, etag, candidates, probe), CurrentEvidence(evidence);
            && (plan.action == WouldPatch <==>
                  && state == Draft
                  && (forall c | c in candidates && !Bound(current, IriOf(c)) :: probe(c) != Uncertain)
                  && (exists c | c in candidates :: !Bound(current, IriOf(c)) && probe(c) == Exists))
            && (plan.action == WouldPatch ==>
                  && plan.items == current + Unnoted(plan.added)
                  && Distinct(plan.added)
                  && (forall iri :: iri in plan.added <==>
                        exists c :: c in candidates && IriOf(c) == iri && !Bound(current, iri) && probe(c) == Exists))
  {
    var missing := MissingCandidates(CurrentEvidence(evidence), candidates);
    MissingExactly(CurrentEvidence(evidence), candidates);
    IrisExactly(missing, probe, Exists);
    FirstsKeep(IrisWith(missing, probe, Exists));
    NoIriWith(missing, probe, Uncertain);
    NoIriWith(missing, probe, Exists);
  }

  /** Uncertainty about one missing candidate of a draft is enough to send nothing. */
  lemma UncertaintyAborts(
    state: State, evidence: seq<Evidence>, etag: Option<nat>, candidates: seq<Candidate>, probe: Candidate -> Verdict)
    ensures var plan := Planned(state, evidence, etag, candidates, probe);
            && (plan.action == AbortUncertain <==>
                  state == Draft && exists c | c in candidates ::
                    !Bound(CurrentEvidence(evidence), IriOf(c)) && probe(c) == Uncertain)
            && (plan.action != WouldPatch ==> plan.items == [])
  {
    MissingExactly(CurrentEvidence(evidence), candidates);
    NoIriWith(MissingCandidates(CurrentEvidence(evidence), candidates), probe, Uncertain);
  }

  /** Every missing candidate of a draft is probed, and named under its answer. */
  lemma PlanReportsExactly(
    state: State, evidence: seq<Evidence>, etag: Option<nat>, candidates: seq<Candidate>, probe: Candidate -> Verdict)
    requires state == Draft
    ensures var plan, current := Planned(state, evidence, etag, candidates, probe), CurrentEvidence(evidence);
            && plan.ifMatch == etag
            && (forall c: Candidate, v: Verdict :: (c, v) in plan.probes
                  <==> c in candidates && !Bound(current, IriOf(c)) && v == probe(c))
            && (forall iri :: iri in plan.dropped
                  <==> exists c :: c in candidates && !Bound(current, IriOf(c)) && probe(c) == Absent
                                   && IriOf(c) == iri)
            && (forall iri :: iri in plan.uncertain
                  <==> exists c :: c in candidates && !Bound(current, IriOf(c)) && probe(c) == Uncertain
                                   && IriOf(c) == iri)
            && (plan.action == WouldPatch || plan.added == [])
  {
    var missing := MissingCandidates(CurrentEvidence(evidence), candidates);
    MissingExactly(CurrentEvidence(evidence), candidates);
    IrisExactly(missing, probe, Absent);
    IrisExactly(missing, probe, Uncertain);
    var probes := Probes(missing, probe);
    forall c: Candidate, v: Verdict
      ensures (c, v) in probes <==> c in missing && v == probe(c)
    {
      if c in missing && v == probe(c) {
        var i :| 0 <= i < |missing| && missing[i] == c;
        assert probes[i] == (c, v);
      }
    }
  }

  lemma {:induction false} SentListReadsBack(items: seq<EvidenceItem>)
    requires forall item | item in items :: item.iri != ""
    ensures CurrentEvidence(RewrittenEvidence(items)) == items
  {
    if items != [] {
      var front := items[..|items| - 1];
      SentListReadsBack(front);
      assert RewrittenEvidence(items)[..|items| - 1] == RewrittenEvidence(front);
      assert items[|items| - 1] in items;
    }
  }

  /** After the server stored the list a plan sent, planning again with the same answers is a no-op. */
  lemma ReplanningIsNoop(
    state: State, evidence: seq<Evidence>, etag: Option<nat>, candidates: seq<Candidate>, probe: Candidate -> Verdict,
    newEtag: Option<nat>)
    requires Planned(state, evidence, etag, candidates, probe).action == WouldPatch
    ensures var plan := Planned(state, evidence, etag, candidates, probe);
            Planned(state, RewrittenEvidence(plan.items), newEtag, candidates, probe).action == Noop
  {
    var plan, current := Planned(state, evidence, etag, candidates, probe), CurrentEvidence(evidence);
    PlanLosesNothing(state, evidence, etag, candidates, probe);
    forall item | item in plan.items
      ensures item.iri != ""
    {
      if item !in current {
        assert item in Unnoted(plan.added) && item.iri in plan.added;
      }
    }
    SentListReadsBack(plan.items);
    forall c | c in candidates && !Bound(plan.items, IriOf(c))
      ensures !Bound(current, IriOf(c)) && probe(c) == Absent
    {
      if Bound(current, IriOf(c)) || IriOf(c) in plan.added {
        StillBound(current, plan.added, IriOf(c));
      }
    }
    MissingExactly(plan.items, candidates);
    NoIriWith(MissingCandidates(plan.items, candidates), probe, Uncertain);
    NoIriWith(MissingCandidates(plan.items, candidates), probe, Exists);
  }

  lemma StillBound(current: seq<EvidenceItem>, added: seq<string>, iri: string)
    requires Bound(current, iri) || iri in added
    ensures Bound(current + Unnoted(added), iri)
  {
    var items := current + Unnoted(added);
    if Bound(current, iri) {
      var i :| 0 <= i < |current| && current[i].iri == iri;
      assert items[i].iri == iri;
    } else {
      var i :| 0 <= i < |added| && added[i] == iri;
      assert items[|current| + i].iri == iri;
    }
  }

  // ----- against the server -----

  /** The PATCH a plan sends. */
  function BinderRequest(candidates: seq<Candidate>, probe: Candidate -> Verdict, row: Row, evidence: seq<Evidence>)
    : Option<Request>
  {
    var plan := Planned(row.state, evidence, Some(row.version), candidates, probe);
    if plan.action == WouldPatch
    then Some(Request([Op("replace", EVIDENCE_PATH)], (doc: Doc) => Some(doc.(evidence := plan.items)), ""))
    else None
  }

  /** A request is sent exactly for a planned write, and on the case it was planned on the server takes it. */
  lemma BinderPatchIsAccepted(c: Case, candidates: seq<Candidate>, probe: Candidate -> Verdict)
    requires DatesConsistent(c) && JoinsOrdered(c)
    ensures BinderRequest(candidates, probe, c.row, c.evidence).Some?
            <==> Planned(c.row.state, c.evidence, Some(c.row.version), candidates, probe).action == WouldPatch
    ensures BinderRequest(candidates, probe, c.row, c.evidence).Some?
            ==> Patched(c, BinderRequest(candidates, probe, c.row, c.evidence).value).Ok?
  {
    var plan := Planned(c.row.state, c.evidence, Some(c.row.version), candidates, probe);
    if plan.action == WouldPatch {
      var req := BinderRequest(candidates, probe, c.row, c.evidence).value;
      OnlyEvidenceTouched(req);
      EvidencePassesTheGate(req);
      PlanLosesNothing(c.row.state, c.evidence, Some(c.row.version), candidates, probe);
      PlannedListIsDistinct(c.evidence, plan.added);
      PatchIsAcceptedExactlyWhen(c, req);
    }
  }

  lemma EvidencePassesTheGate(req: Request)
    requires req.ops == [Op("replace", EVIDENCE_PATH)]
    ensures PathsAllowed(req.ops, Draft)
  {
    assert EVIDENCE_PATH[1] == 'e' && |EVIDENCE_PATH| == 9;
    forall prefix | prefix in BLOCKED_PATH_PREFIXES
      ensures !IsUnder(EVIDENCE_PATH, prefix)
    {
      assert prefix[1] != 'e';
    }
  }

  lemma {:induction false} CurrentIsDistinct(evidence: seq<Evidence>)
    requires EvidenceOrdered(evidence)
    ensures DistinctEvidence(CurrentEvidence(evidence))
    ensures forall item | item in CurrentEvidence(evidence) :: exists e :: e in evidence && e.iri == item.iri
  {
    if evidence != [] {
      var front, last := evidence[..|evidence| - 1], evidence[|evidence| - 1];
      CurrentIsDistinct(front);
      var items := CurrentEvidence(front);
      forall i | 0 <= i < |items|
        ensures items[i].iri != last.iri
      {
        assert items[i] in items;
        var e :| e in front && e.iri == items[i].iri;
        var k :| 0 <= k < |front| && front[k] == e;
        assert evidence[k].iri == e.iri;
      }
      assert last in evidence && forall e | e in front :: e in evidence;
    }
  }

  lemma PlannedListIsDistinct(evidence: seq<Evidence>, added: seq<string>)
    requires EvidenceOrdered(evidence) && Distinct(added)
    requires forall iri | iri in added :: !Bound(CurrentEvidence(evidence), iri)
    ensures DistinctEvidence(CurrentEvidence(evidence) + Unnoted(added))
  {
    CurrentIsDistinct(evidence);
    var current := CurrentEvidence(evidence);
    forall i, j | 0 <= i < |current| && 0 <= j < |added|
      ensures current[i].iri != added[j]
    {
      assert added[j] in added;
    }
  }

  lemma OnlyEvidenceTouched(req: Request)
    requires req.ops == [Op("replace", EVIDENCE_PATH)]
    ensures Touches(req.ops, "/evidence")
    ensures !Touches(req.ops, "/entities") && !Touches(req.ops, "/court_cases") && !Touches(req.ops, "/authors")
    ensures !Touches(req.ops, "/case_start_date") && !Touches(req.ops, "/case_end_date")
  {
    assert IsUnder(req.ops[0].path, "/evidence");
    assert ("/authors" + "/")[1] == 'a' && EVIDENCE_PATH[1] == 'e';
  }

  /** Alone on the case, the request stores the current rows and then the additions; no other join changes. */
  lemma BinderPatchStores(c: Case, candidates: seq<Candidate>, probe: Candidate -> Verdict, req: Request)
    requires BinderRequest(candidates, probe, c.row, c.evidence).Some?
    requires req == BinderRequest(candidates, probe, c.row, c.evidence).value && Patched(c, req).Ok?
    ensures var after := Patched(c, req).value;
            var plan := Planned(c.row.state, c.evidence, Some(c.row.version), candidates, probe);
            && after.evidence == RewrittenEvidence(CurrentEvidence(c.evidence) + Unnoted(plan.added))
            && after.binds == c.binds && after.courtCases == c.courtCases && after.authors == c.authors
            && after.log == c.log && after.row.stages == c.row.stages && after.row.timeline == c.row.timeline
            && after.row.state == c.row.state && after.row.slug == c.row.slug
  {
    OnlyEvidenceTouched(req);
  }

  /**
   Among any concurrent PATCHes and approvals, each commit of a binder writes the evidence the
   case has at that commit, in order, and then its additions: no row is clobbered, however
   late it was added.
   */
  lemma BinderClobbersNothing(
    w: World, schedule: seq<nat>, k: nat, candidates: seq<Candidate>, probe: Candidate -> Verdict)
    requires Begins(w) && AllProtected(w) && k < |Play(w, schedule).commits|
    requires var commit := Play(w, schedule).commits[k];
             && commit.planned.Some?
             && forall row, evidence ::
                  commit.planned.value.make(row, evidence) == BinderRequest(candidates, probe, row, evidence)
    ensures var commits := Play(w, schedule).commits;
            var before, after := Replay(w.stored, commits[..k]), Replay(w.stored, commits[..k + 1]);
            && after.evidence
               == RewrittenEvidence(
                    CurrentEvidence(before.evidence)
                    + Unnoted(Planned(before.row.state, before.evidence, Some(before.row.version),
                                      candidates, probe).added))
            && after.binds == before.binds && after.row.timeline == before.row.timeline
  {
    EveryScheduleIsSerial(w, schedule);
    var commits := Play(w, schedule).commits;
    var before := Replay(w.stored, commits[..k]);
    CommitReplays(w.stored, commits, k);
    assert commits[k].planned.value.make(before.row, before.evidence)
        == BinderRequest(candidates, probe, before.row, before.evidence);
    BinderPatchStores(before, candidates, probe, commits[k].job.req);
  }
}
