/**
 The docket merge (casework/case_stages.py) and the references it works from
 (casework/court_record.py): trial dockets become first-instance stages of a case, and the
 whole list is sent back to the server, which validates it.
 */
module CaseStages {
  import opened Common
  import opened TextDates
  import opened Stages

  // ----- which dockets a case proposes -----

  datatype Ref = Ref(court: string, number: string, iri: string)

  /** One hearing: whether its status decides the case, and its date. */
  datatype Hearing = Hearing(decides: bool, date: string)

  /** What a court serves of one docket. "" is a date it lacks. */
  datatype CourtRecord = CourtRecord(registered: string, hearings: seq<Hearing>, statusVerdict: string)

  /** One trial docket as it is merged: `trial_stage` of its court record. */
  datatype Docket = Docket(iri: string, start: string, end: string)

  predicate CourtDate(text: string) {
    text == "" || (Dashed(text) && ParseDate(text).Some?)
  }

  /** `deciding_hearing`: the first of the greatest dates as text, never by position. */
  function DecidingHearing(hearings: seq<Hearing>): Option<Hearing> {
    if hearings == [] then None
    else
      var best, last := DecidingHearing(hearings[..|hearings| - 1]), hearings[|hearings| - 1];
      if !last.decides then best
      else if best.None? || !TextLeq(last.date, best.value.date) then Some(last)
      else best
  }

  /** `reference_end`: the deciding hearing first, then the date in the case status. */
  function ReferenceEnd(r: CourtRecord): string {
    var hearing := DecidingHearing(r.hearings);
    if hearing.Some? && hearing.value.date != "" then hearing.value.date else r.statusVerdict
  }

  function TrialStage(ref: Ref, r: CourtRecord): Docket {
    Docket(ref.iri, r.registered, ReferenceEnd(r))
  }

  predicate HearingsFromCourt(hearings: seq<Hearing>) {
    forall i | 0 <= i < |hearings| :: CourtDate(hearings[i].date)
  }

  predicate NoLater(date: string, best: Option<Hearing>)
    requires CourtDate(date) && (best.Some? ==> CourtDate(best.value.date))
  {
    date != "" ==> best.Some? && best.value.date != "" && DayOf(date) <= DayOf(best.value.date)
  }

  /** Of two court dates the one that sorts first is no later; a missing one sorts first. */
  lemma CourtDatesOrder(a: string, b: string)
    requires CourtDate(a) && CourtDate(b)
    ensures TextLeq(a, b) ==> a == "" || (b != "" && DayOf(a) <= DayOf(b))
    ensures !TextLeq(a, b) ==> a != "" && (b == "" || DayOf(b) <= DayOf(a))
  {
    if a != "" && b != "" {
      DashedOrder(a, b);
    }
  }

  lemma OneMoreHearing(hearings: seq<Hearing>)
    requires hearings != [] && HearingsFromCourt(hearings)
    requires DecidingHearing(hearings[..|hearings| - 1]).Some? ==>
               CourtDate(DecidingHearing(hearings[..|hearings| - 1]).value.date)
    ensures var before, best, last :=
              DecidingHearing(hearings[..|hearings| - 1]), DecidingHearing(hearings), hearings[|hearings| - 1];
            && (best == before || (last.decides && best == Some(last)))
            && (before.Some? ==> NoLater(before.value.date, best))
            && (last.decides ==> best.Some? && NoLater(last.date, best))
  {
    var before, last := DecidingHearing(hearings[..|hearings| - 1]), hearings[|hearings| - 1];
    if last.decides && before.Some? {
      CourtDatesOrder(last.date, before.value.date);
    }
  }

  /** The end of a docket is the latest day a deciding hearing carries. */
  lemma {:induction false} EndIsTheLatestDecision(hearings: seq<Hearing>)
    requires HearingsFromCourt(hearings)
    ensures match DecidingHearing(hearings)
            case None => forall i | 0 <= i < |hearings| :: !hearings[i].decides
            case Some(best) =>
              && best.decides && best in hearings && CourtDate(best.date)
              && forall i | 0 <= i < |hearings| && hearings[i].decides && hearings[i].date != "" ::
                   best.date != "" && DayOf(hearings[i].date) <= DayOf(best.date)
  {
    if hearings != [] {
      var front := hearings[..|hearings| - 1];
      EndIsTheLatestDecision(front);
      assert forall i | 0 <= i < |front| :: hearings[i] == front[i];
      OneMoreHearing(hearings);
    }
  }

  /** A record whose dates are court dates proposes a docket whose dates are. */
  lemma TrialStageIsFromCourt(ref: Ref, r: CourtRecord)
    requires ref.iri != "" && CourtDate(r.registered) && CourtDate(r.statusVerdict) && HearingsFromCourt(r.hearings)
    ensures FromCourt(TrialStage(ref, r))
  {
    EndIsTheLatestDecision(r.hearings);
  }

  /**
   The docket of a record: its registration, and the day of its latest deciding hearing; the
   date in the case status when no deciding hearing carries one.
   */
  lemma TrialStageExactly(ref: Ref, r: CourtRecord)
    requires HearingsFromCourt(r.hearings)
    ensures var d := TrialStage(ref, r);
            && d.iri == ref.iri && d.start == r.registered
            && if exists i | 0 <= i < |r.hearings| :: r.hearings[i].decides && r.hearings[i].date != ""
               then && d.end != ""
                    && (exists i | 0 <= i < |r.hearings| :: r.hearings[i].decides && r.hearings[i].date == d.end)
                    && (forall i | 0 <= i < |r.hearings| && r.hearings[i].decides && r.hearings[i].date != "" ::
                          DayOf(r.hearings[i].date) <= DayOf(d.end))
               else d.end == r.statusVerdict
  {
    EndIsTheLatestDecision(r.hearings);
    var best := DecidingHearing(r.hearings);
    if best.Some? {
      var i :| 0 <= i < |r.hearings| && r.hearings[i] == best.value;
      assert r.hearings[i].decides;
    }
  }

  function Iris(dockets: seq<Docket>): (iris: seq<string>)
    ensures |iris| == |dockets| && forall i | 0 <= i < |dockets| :: iris[i] == dockets[i].iri
  {
    seq(|dockets|, i requires 0 <= i < |dockets| => dockets[i].iri)
  }

  /**
   `court_record_for_case` over `trial_refs`, kept where it carries a date: the docket of every
   trial reference that parses and can be read. `parse` is the IRI grammar, `isTrial` the court
   and case-type test, `read` the court record; all three are foreign here.
   */
  function TrialDockets(
    courtCases: seq<string>,
    parse: string -> Option<(string, string)>,
    isTrial: (string, string) -> bool,
    read: Ref -> Option<CourtRecord>
  ): (dockets: seq<Docket>)
  {
    if courtCases == [] then []
    else
      var n := |courtCases| - 1;
      var front := TrialDockets(courtCases[..n], parse, isTrial, read);
      match parse(courtCases[n])
      case None => front
      case Some((court, number)) =>
        var ref := Ref(court, number, Strip(courtCases[n], BLANKS));
        if !isTrial(court, number) then front
        else
          match read(ref)
          case None => front
          case Some(record) =>
            var d := TrialStage(ref, record);
            if d.start == "" && d.end == "" then front else front + [d]
  }

  /** The stored references are canonical: no blank at either end. */
  predicate Canonical(courtCases: seq<string>) {
    forall i | 0 <= i < |courtCases| :: Strip(courtCases[i], BLANKS) == courtCases[i]
  }

  /** The dockets of a case cite its own references, none twice, and each carries a date. */
  lemma {:induction false} TrialDocketsAreBound(
    courtCases: seq<string>,
    parse: string -> Option<(string, string)>,
    isTrial: (string, string) -> bool,
    read: Ref -> Option<CourtRecord>)
    requires Distinct(courtCases) && Canonical(courtCases)
    ensures var dockets := TrialDockets(courtCases, parse, isTrial, read);
            && Distinct(Iris(dockets))
            && forall d | d in dockets :: d.iri in courtCases && (d.start != "" || d.end != "")
  {
    if courtCases != [] {
      var n := |courtCases| - 1;
      TrialDocketsAreBound(courtCases[..n], parse, isTrial, read);
      var front := TrialDockets(courtCases[..n], parse, isTrial, read);
      assert courtCases[n] !in courtCases[..n];
      forall i | 0 <= i < |front|
        ensures front[i].iri in courtCases && front[i].iri != courtCases[n]
      {
        assert front[i] in front;
      }
    }
  }

  /** A case proposes a docket for exactly those of its references that are trials, can be read and carry a date. */
  lemma {:induction false} TrialDocketsExactly(
    courtCases: seq<string>,
    parse: string -> Option<(string, string)>,
    isTrial: (string, string) -> bool,
    read: Ref -> Option<CourtRecord>,
    d: Docket)
    ensures d in TrialDockets(courtCases, parse, isTrial, read)
            <==> exists i | 0 <= i < |courtCases| :: ProposedFor(courtCases[i], parse, isTrial, read) == Some(d)
  {
    if courtCases != [] {
      var n := |courtCases| - 1;
      TrialDocketsExactly(courtCases[..n], parse, isTrial, read, d);
      if i :| 0 <= i < n && ProposedFor(courtCases[i], parse, isTrial, read) == Some(d) {
        assert courtCases[..n][i] == courtCases[i];
      }
    }
  }

  /** What one reference proposes. */
  function ProposedFor(
    reference: string,
    parse: string -> Option<(string, string)>,
    isTrial: (string, string) -> bool,
    read: Ref -> Option<CourtRecord>): Option<Docket>
  {
    if parse(reference).None? || !isTrial(parse(reference).value.0, parse(reference).value.1) then None
    else
      var ref := Ref(parse(reference).value.0, parse(reference).value.1, Strip(reference, BLANKS));
      if read(ref).None? || (read(ref).value.registered == "" && ReferenceEnd(read(ref).value) == "") then None
      else Some(TrialStage(ref, read(ref).value))
  }

  lemma TrialDocketsSnoc(
    courtCases: seq<string>,
    parse: string -> Option<(string, string)>,
    isTrial: (string, string) -> bool,
    read: Ref -> Option<CourtRecord>)
    requires courtCases != []
    ensures var proposed := ProposedFor(courtCases[|courtCases| - 1], parse, isTrial, read);
            TrialDockets(courtCases, parse, isTrial, read)
            == TrialDockets(courtCases[..|courtCases| - 1], parse, isTrial, read)
               + if proposed.Some? then [proposed.value] else []
  {
  }

  /** Dockets come in the order of the references. */
  lemma {:induction false} TrialDocketsInOrder(
    a: seq<string>,
    b: seq<string>,
    parse: string -> Option<(string, string)>,
    isTrial: (string, string) -> bool,
    read: Ref -> Option<CourtRecord>)
    ensures TrialDockets(a + b, parse, isTrial, read)
            == TrialDockets(a, parse, isTrial, read) + TrialDockets(b, parse, isTrial, read)
  {
    if b == [] {
      assert a + b == a;
    } else {
      TrialDocketsInOrder(a, b[..|b| - 1], parse, isTrial, read);
      assert (a + b)[..|a + b| - 1] == a + b[..|b| - 1];
      TrialDocketsSnoc(a + b, parse, isTrial, read);
      TrialDocketsSnoc(b, parse, isTrial, read);
    }
  }

  // ----- one docket onto one stage -----

  /** `_orderable`: the two halves compared as text. */
  predicate Orderable(start: string, end: string) {
    start == "" || end == "" || TextLeq(start, end)
  }

  function Or(a: string, b: string): string {
    if a != "" then a else b
  }

  /** `_refused_keys`: whether the start and the end of the docket are dropped. */
  function Refused(target: Stage, d: Docket): (bool, bool)
    requires target.Stage?
  {
    var newStart, newEnd := d.start != "" && d.start != target.start, d.end != "" && d.end != target.end;
    var start, end := Or(d.start, target.start), Or(d.end, target.end);
    if !newStart && !newEnd then (false, false)
    else if Orderable(start, end) then (false, false)
    else if newEnd then
      if Orderable(start, target.end) then (false, true) else (true, true)
    else
      if Orderable(target.start, end) then (true, false) else (true, true)
  }

  /** The stage after `_apply`: a value replaces a value, an absence never removes one. */
  function Applied(target: Stage, d: Docket): Stage
    requires target.Stage?
  {
    var (noStart, noEnd) := Refused(target, d);
    target.(start := if noStart then target.start else Or(d.start, target.start),
            end := if noEnd then target.end else Or(d.end, target.end))
  }

  method Apply(target: Stage, d: Docket) returns (r: Stage)
    requires target.Stage?
    ensures r == Applied(target, d)
  {
    var (noStart, noEnd) := Refused(target, d);
    r := target;
    if d.start != "" && r.start != d.start && !noStart {
      r := r.(start := d.start);
    }
    if d.end != "" && r.end != d.end && !noEnd {
      r := r.(end := d.end);
    }
  }

  /** A refused half stays refused: applying a docket twice is applying it once. */
  lemma AppliedIsSettled(target: Stage, d: Docket)
    requires target.Stage?
    ensures Applied(Applied(target, d), d) == Applied(target, d)
  {
  }

  /**
   What survives an inverted pair. Both halves of the docket are written when they can stand
   with what is stored. Otherwise at most one is: the start when the docket changes the end and
   the start can stand with the stored end, else the start or neither; a half is only given up
   when writing it would leave a pair the text order refuses.
   */
  lemma OnlyAnInvertingHalfIsDropped(target: Stage, d: Docket)
    requires target.Stage?
    ensures var r, start, end := Applied(target, d), Or(d.start, target.start), Or(d.end, target.end);
            && (Orderable(start, end) ==> r == target.(start := start, end := end))
            && (!Orderable(start, end) ==>
                  && (r.start == start || r.start == target.start) && (r.end == end || r.end == target.end)
                  && (end != target.end && Orderable(start, target.end) ==> r.start == start && r.end == target.end)
                  && (end != target.end && !Orderable(start, target.end) ==> r == target)
                  && (end == target.end ==> r == target))
  {
  }

  /**
   What the report of a merge names as refused: nothing where the docket changes nothing or its
   pair can stand; otherwise the end if the docket changes it, else the start, and the other half
   too unless it can stand with what is stored.
   */
  lemma RefusedExactly(target: Stage, d: Docket)
    requires target.Stage?
    ensures var (noStart, noEnd) := Refused(target, d);
            var changesStart, changesEnd := d.start !in {"", target.start}, d.end !in {"", target.end};
            var inverted :=
              (changesStart || changesEnd) && !Orderable(Or(d.start, target.start), Or(d.end, target.end));
            && (noStart <==> inverted && (!changesEnd || !Orderable(Or(d.start, target.start), target.end)))
            && (noEnd <==> inverted && (changesEnd || !Orderable(target.start, Or(d.end, target.end))))
  {
  }

  /** A docket as the court tables serve it: dates spelled `YYYY-MM-DD`. */
  predicate FromCourt(d: Docket) {
    d.iri != "" && CourtDate(d.start) && CourtDate(d.end)
  }

  predicate DatesValid(s: Stage) {
    s.Stage? && ReadableDate(s.start) && ReadableDate(s.end) && InOrder(s.start, s.end)
  }

  predicate KeptApart(start: string, end: string) {
    ParseDate(start).Some? && ParseDate(end).Some? && Misjudged(start, end)
  }

  /**
   What the text comparison gets wrong: a half the docket brings is written beside a stored half
   in another spelling that sorts on the right side of it and names a day on the wrong one. The
   stored half stays because the docket carries none, or one that inverts its own pair.
   */
  predicate Overtaken(target: Stage, d: Docket)
    requires target.Stage?
  {
    if d.start != "" then (d.end == "" || !TextLeq(d.start, d.end)) && KeptApart(d.start, target.end)
    else d.end != "" && KeptApart(target.start, d.end)
  }

  /** Every pair a merge writes is either the stored one or orderable as text. */
  lemma WrittenPair(target: Stage, d: Docket)
    requires target.Stage?
    ensures var r := Applied(target, d);
            (r.start == target.start && r.end == target.end) || Orderable(r.start, r.end)
  {
  }

  /** A pair out of order was accepted by its texts, so it mixes a docket half with a stored one. */
  lemma InvertedPairIsOvertaken(target: Stage, d: Docket)
    requires DatesValid(target) && FromCourt(d)
    requires !InOrder(Applied(target, d).start, Applied(target, d).end)
    ensures Overtaken(target, d)
  {
    var r := Applied(target, d);
    WrittenPair(target, d);
    MisjudgedExactly(r.start, r.end);
    assert KeptApart(r.start, r.end);
    CourtPairIsNotMisjudged(d);
  }

  /** Two court dates are spelled alike, so text order judges them rightly. */
  lemma CourtPairIsNotMisjudged(d: Docket)
    requires FromCourt(d)
    ensures !KeptApart(d.start, d.end)
  {
  }

  lemma OvertakenIsWritten(target: Stage, d: Docket)
    requires DatesValid(target) && FromCourt(d) && Overtaken(target, d)
    ensures var r := Applied(target, d);
            if d.start != "" then r.start == d.start && r.end == target.end
            else r.start == target.start && r.end == d.end
  {
    if d.start != "" {
      MisjudgedExactly(d.start, target.end);
      assert d.start != target.start;
      assert d.end != target.end;
    } else {
      MisjudgedExactly(target.start, d.end);
      assert d.end != target.end;
    }
  }

  /** Writing one docket keeps a valid stage valid exactly unless it overtakes the half that is kept. */
  lemma AppliedIsValid(target: Stage, d: Docket)
    requires DatesValid(target) && FromCourt(d)
    ensures DatesValid(Applied(target, d)) <==> !Overtaken(target, d)
  {
    var r := Applied(target, d);
    assert ReadableDate(r.start) && ReadableDate(r.end);
    if Overtaken(target, d) {
      OvertakenIsWritten(target, d);
    } else if !InOrder(r.start, r.end) {
      InvertedPairIsOvertaken(target, d);
    }
  }

  /** Stored dates in the courts' spelling are never overtaken. */
  lemma CourtDatesAreNotOvertaken(target: Stage, d: Docket)
    requires target.Stage? && CourtDate(target.start) && CourtDate(target.end) && FromCourt(d)
    ensures !Overtaken(target, d)
  {
  }

  // ----- the merge -----

  /** Position of the first stage citing `iri`; the length when none does. */
  function FirstCiting(stages: seq<Stage>, iri: string): (m: nat)
    requires AllRecords(stages)
    ensures m <= |stages|
    ensures m < |stages| ==> stages[m].iri == iri
    ensures forall i | 0 <= i < m :: stages[i].iri != iri
  {
    if stages == [] then 0
    else
      var n := |stages| - 1;
      var m := FirstCiting(stages[..n], iri);
      if m < n then m else if stages[n].iri == iri then n else n + 1
  }

  predicate CanAdopt(s: Stage) {
    IsInitial(s) && s.iri == ""
  }

  /** `_adoptable`: the first first-instance stage citing no docket, when exactly one is proposed. */
  function Adoptable(stages: seq<Stage>, proposals: nat): (a: Option<nat>)
    ensures a.Some? ==> a.value < |stages| && CanAdopt(stages[a.value]) && proposals == 1
  {
    if proposals != 1 || stages == [] then None
    else
      var n := |stages| - 1;
      var a := Adoptable(stages[..n], proposals);
      if a.Some? then a else if CanAdopt(stages[n]) then Some(n) else None
  }

  /** Where the merge writes a docket: its own stage, the adopted one, or past the end. */
  function TargetAt(stages: seq<Stage>, adopt: Option<nat>, d: Docket): (at: nat)
    requires AllRecords(stages) && (adopt.Some? ==> adopt.value < |stages|)
    ensures at <= |stages|
  {
    var m := FirstCiting(stages, d.iri);
    if m < |stages| then m else if adopt.Some? then adopt.value else |stages|
  }

  function TargetOf(stages: seq<Stage>, adopt: Option<nat>, d: Docket): (s: Stage)
    requires AllRecords(stages) && (adopt.Some? ==> adopt.value < |stages|)
    ensures s.Stage?
  {
    var at := TargetAt(stages, adopt, d);
    if at < |stages| then stages[at] else NEW_FIRST_INSTANCE
  }

  /** One docket merged into the list, and the adoption that is left. */
  function Step(stages: seq<Stage>, adopt: Option<nat>, d: Docket): (r: (seq<Stage>, Option<nat>))
    requires AllRecords(stages) && (adopt.Some? ==> adopt.value < |stages|)
    ensures AllRecords(r.0) && |stages| <= |r.0| && (r.1.Some? ==> r.1 == adopt)
  {
    var at := TargetAt(stages, adopt, d);
    var written := Applied(TargetOf(stages, adopt, d).(iri := d.iri), d);
    var left := if FirstCiting(stages, d.iri) < |stages| then adopt else None;
    (if at < |stages| then stages[at := written] else stages + [written], left)
  }

  function MergeFrom(stages: seq<Stage>, adopt: Option<nat>, dockets: seq<Docket>): (r: seq<Stage>)
    requires AllRecords(stages) && (adopt.Some? ==> adopt.value < |stages|)
    ensures AllRecords(r) && |stages| <= |r|
    decreases dockets
  {
    if dockets == [] then stages
    else
      var (next, left) := Step(stages, adopt, dockets[0]);
      MergeFrom(next, left, dockets[1..])
  }

  function Merge(existing: seq<Stage>, dockets: seq<Docket>): (r: seq<Stage>)
    ensures AllRecords(r)
  {
    ObjectsAreRecords(existing);
    var records := Objects(existing);
    MergeFrom(records, Adoptable(records, |dockets|), dockets)
  }

  /** `merge_trial_stages`. */
  method MergeTrialStages(existing: seq<Stage>, dockets: seq<Docket>) returns (stages: seq<Stage>)
    ensures stages == Merge(existing, dockets)
  {
    ObjectsAreRecords(existing);
    stages := Objects(existing);
    if dockets == [] {
      return;
    }
    var adopt: Option<nat> := Adoptable(stages, |dockets|);
    for i := 0 to |dockets|
      invariant AllRecords(stages) && (adopt.Some? ==> adopt.value < |stages|)
      invariant MergeFrom(stages, adopt, dockets[i..]) == Merge(existing, dockets)
    {
      var d := dockets[i];
      assert dockets[i..][0] == d && dockets[i..][1..] == dockets[i + 1..];
      ghost var (next, left) := Step(stages, adopt, d);
      var matched := FirstCiting(stages, d.iri);
      if matched < |stages| {
        assert stages[matched].(iri := d.iri) == stages[matched];
        var written := Apply(stages[matched], d);
        stages := stages[matched := written];
      } else if adopt.Some? {
        var written := Apply(stages[adopt.value].(iri := d.iri), d);
        stages := stages[adopt.value := written];
        adopt := None;
      } else {
        var added := Apply(NEW_FIRST_INSTANCE.(iri := d.iri), d);
        stages := stages + [added];
      }
      assert stages == next && adopt == left;
    }
  }

  // ----- what one step leaves alone -----

  ghost predicate Mergeable(stages: seq<Stage>, adopt: Option<nat>, dockets: seq<Docket>) {
    && AllRecords(stages)
    && (adopt.Some? ==> adopt.value < |stages| && CanAdopt(stages[adopt.value]) && |dockets| <= 1)
    && Distinct(Iris(dockets))
    && forall d | d in dockets :: d.iri != ""
  }

  /** After the first docket, the others still find what they would have found at the start. */
  lemma StepKeepsOthers(stages: seq<Stage>, adopt: Option<nat>, dockets: seq<Docket>)
    requires dockets != [] && Mergeable(stages, adopt, dockets)
    ensures var (next, left) := Step(stages, adopt, dockets[0]);
            && Mergeable(next, left, dockets[1..])
            && (forall d | d in dockets[1..] ::
                  && d.iri != dockets[0].iri
                  && TargetOf(next, left, d) == TargetOf(stages, adopt, d)
                  && (TargetAt(next, left, d) < |next| <==> TargetAt(stages, adopt, d) < |stages|))
  {
    var (next, left) := Step(stages, adopt, dockets[0]);
    var at := TargetAt(stages, adopt, dockets[0]);
    if |dockets| > 1 {
      assert adopt == None;
    }
    forall i, j | 0 <= i < j < |dockets[1..]|
      ensures Iris(dockets[1..])[i] != Iris(dockets[1..])[j]
    {
      assert Iris(dockets)[i + 1] != Iris(dockets)[j + 1];
    }
    forall d | d in dockets[1..]
      ensures d.iri != dockets[0].iri && d.iri != ""
      ensures TargetOf(next, left, d) == TargetOf(stages, adopt, d)
      ensures TargetAt(next, left, d) < |next| <==> TargetAt(stages, adopt, d) < |stages|
    {
      var j :| 0 <= j < |dockets[1..]| && dockets[1..][j] == d;
      assert Iris(dockets)[0] != Iris(dockets)[j + 1];
      assert d == dockets[j + 1] && d in dockets;
      var m := FirstCiting(stages, d.iri);
      assert next[at].iri == dockets[0].iri;
      assert forall i | 0 <= i < |stages| && i != at :: next[i] == stages[i];
      if m < |stages| {
        assert m != at;
        assert FirstCiting(next, d.iri) == m;
      } else {
        assert FirstCiting(next, d.iri) == |next|;
      }
    }
  }

  /** A stage that no remaining docket cites, and that is not up for adoption, comes through. */
  lemma {:induction false} Untouched(stages: seq<Stage>, adopt: Option<nat>, dockets: seq<Docket>, at: nat)
    requires Mergeable(stages, adopt, dockets) && at < |stages| && adopt != Some(at)
    requires forall d | d in dockets :: d.iri != stages[at].iri
    ensures MergeFrom(stages, adopt, dockets)[at] == stages[at]
    decreases dockets
  {
    if dockets != [] {
      var (next, left) := Step(stages, adopt, dockets[0]);
      StepKeepsOthers(stages, adopt, dockets);
      assert dockets[0] in dockets;
      assert TargetAt(stages, adopt, dockets[0]) != at;
      assert next[at] == stages[at];
      assert forall d | d in dockets[1..] :: d in dockets;
      Untouched(next, left, dockets[1..], at);
    }
  }

  // ----- the server accepts what the merge produces -----

  lemma WrittenRecordValid(target: Stage, d: Docket, binds: set<string>)
    requires ValidRecord(target, Some(binds)) && target.Stage? && FromCourt(d) && d.iri in binds
    ensures ValidRecord(Applied(target.(iri := d.iri), d), Some(binds)) <==> !Overtaken(target, d)
  {
    var cited := target.(iri := d.iri);
    var written := Applied(cited, d);
    ValidRecordObeys(target, Some(binds), ReadableStart);
    ValidRecordObeys(target, Some(binds), ReadableEnd);
    ValidRecordObeys(target, Some(binds), EndNotBeforeStart);
    AppliedIsValid(cited, d);
    if Overtaken(target, d) {
      assert !Obeys(EndNotBeforeStart, written, Some(binds)) || !Obeys(ReadableStart, written, Some(binds))
          || !Obeys(ReadableEnd, written, Some(binds));
      EveryRuleIsListed(EndNotBeforeStart);
      EveryRuleIsListed(ReadableStart);
      EveryRuleIsListed(ReadableEnd);
    } else {
      forall k | 0 <= k < |RULES|
        ensures Obeys(RULES[k], written, Some(binds))
      {
        assert Obeys(RULES[k], target, Some(binds));
      }
    }
  }

  lemma NewFirstInstanceValid(binds: set<string>)
    ensures ValidRecord(NEW_FIRST_INSTANCE, Some(binds))
  {
  }

  lemma TargetValid(stages: seq<Stage>, adopt: Option<nat>, d: Docket, binds: set<string>)
    requires AllRecords(stages) && (adopt.Some? ==> adopt.value < |stages|) && Valid(stages, Some(binds))
    ensures ValidRecord(TargetOf(stages, adopt, d), Some(binds))
  {
    NewFirstInstanceValid(binds);
  }

  lemma StepValid(stages: seq<Stage>, adopt: Option<nat>, d: Docket, binds: set<string>)
    requires AllRecords(stages) && (adopt.Some? ==> adopt.value < |stages|) && Valid(stages, Some(binds))
    requires FromCourt(d) && d.iri in binds
    ensures Valid(Step(stages, adopt, d).0, Some(binds)) <==> !Overtaken(TargetOf(stages, adopt, d), d)
  {
    var at := TargetAt(stages, adopt, d);
    var next := Step(stages, adopt, d).0;
    TargetValid(stages, adopt, d, binds);
    WrittenRecordValid(TargetOf(stages, adopt, d), d, binds);
    assert next[at] == Applied(TargetOf(stages, adopt, d).(iri := d.iri), d);
    assert forall i | 0 <= i < |next| && i != at :: next[i] == stages[i];
  }

  /** What the first docket makes invalid no later one touches. */
  lemma OvertakenStaysInvalid(stages: seq<Stage>, adopt: Option<nat>, dockets: seq<Docket>, binds: set<string>)
    requires dockets != [] && Mergeable(stages, adopt, dockets) && Valid(stages, Some(binds))
    requires FromCourt(dockets[0]) && dockets[0].iri in binds
    requires Overtaken(TargetOf(stages, adopt, dockets[0]), dockets[0])
    ensures !Valid(MergeFrom(stages, adopt, dockets), Some(binds))
  {
    var (next, left) := Step(stages, adopt, dockets[0]);
    var at := TargetAt(stages, adopt, dockets[0]);
    StepKeepsOthers(stages, adopt, dockets);
    TargetValid(stages, adopt, dockets[0], binds);
    WrittenRecordValid(TargetOf(stages, adopt, dockets[0]), dockets[0], binds);
    assert next[at].iri == dockets[0].iri != "" && !ValidRecord(next[at], Some(binds));
    assert left.Some? ==> next[left.value].iri == "";
    Untouched(next, left, dockets[1..], at);
  }

  lemma {:induction false} MergeFromValid(
    stages: seq<Stage>, adopt: Option<nat>, dockets: seq<Docket>, binds: set<string>)
    requires Mergeable(stages, adopt, dockets) && Valid(stages, Some(binds))
    requires forall d | d in dockets :: FromCourt(d) && d.iri in binds
    ensures Valid(MergeFrom(stages, adopt, dockets), Some(binds))
            <==> forall d | d in dockets :: !Overtaken(TargetOf(stages, adopt, d), d)
    decreases dockets
  {
    if dockets != [] {
      var d := dockets[0];
      var (next, left) := Step(stages, adopt, d);
      StepValid(stages, adopt, d, binds);
      StepKeepsOthers(stages, adopt, dockets);
      assert forall x :: x in dockets <==> x == d || x in dockets[1..];
      if Overtaken(TargetOf(stages, adopt, d), d) {
        OvertakenStaysInvalid(stages, adopt, dockets, binds);
      } else {
        MergeFromValid(next, left, dockets[1..], binds);
      }
    }
  }

  lemma RecordsAreMergeable(records: seq<Stage>, dockets: seq<Docket>)
    requires AllRecords(records)
    requires Distinct(Iris(dockets)) && forall d | d in dockets :: d.iri != ""
    ensures Mergeable(records, Adoptable(records, |dockets|), dockets)
  {
  }

  /** The stage of the case that a docket is merged into: a new one when nothing matches. */
  function TargetIn(existing: seq<Stage>, dockets: seq<Docket>, d: Docket): (s: Stage)
    ensures s.Stage?
  {
    ObjectsAreRecords(existing);
    TargetOf(Objects(existing), Adoptable(Objects(existing), |dockets|), d)
  }

  /**
   The merged list passes the server's validation, whatever inverted pairs the dockets carry,
   unless some docket overtakes the half its stage keeps.
   */
  lemma MergeIsAccepted(existing: seq<Stage>, dockets: seq<Docket>, binds: set<string>)
    requires Valid(existing, Some(binds))
    requires Distinct(Iris(dockets)) && forall d | d in dockets :: FromCourt(d) && d.iri in binds
    ensures Valid(Merge(existing, dockets), Some(binds))
            <==> forall d | d in dockets :: !Overtaken(TargetIn(existing, dockets, d), d)
  {
    ValidIsMonotone(existing, binds, binds);
    ObjectsOfRecords(existing);
    RecordsAreMergeable(existing, dockets);
    MergeFromValid(existing, Adoptable(existing, |dockets|), dockets, binds);
  }

  lemma TargetHasCourtDates(existing: seq<Stage>, dockets: seq<Docket>, d: Docket)
    requires AllRecords(existing)
    requires forall s | s in existing && s.Stage? :: CourtDate(s.start) && CourtDate(s.end)
    ensures CourtDate(TargetIn(existing, dockets, d).start) && CourtDate(TargetIn(existing, dockets, d).end)
  {
    ObjectsOfRecords(existing);
    var s := TargetIn(existing, dockets, d);
    assert s in existing || s == NEW_FIRST_INSTANCE;
  }

  /** For a case and its own trial dockets, stage dates spelled as the court spells them suffice. */
  lemma TrialMergeIsAccepted(
    existing: seq<Stage>,
    courtCases: seq<string>,
    parse: string -> Option<(string, string)>,
    isTrial: (string, string) -> bool,
    read: Ref -> Option<CourtRecord>)
    requires Distinct(courtCases) && Canonical(courtCases)
    requires Valid(existing, Some(set iri | iri in courtCases))
    requires forall d | d in TrialDockets(courtCases, parse, isTrial, read) :: FromCourt(d)
    requires forall s | s in existing && s.Stage? :: CourtDate(s.start) && CourtDate(s.end)
    ensures Valid(Merge(existing, TrialDockets(courtCases, parse, isTrial, read)),
                  Some(set iri | iri in courtCases))
  {
    var dockets := TrialDockets(courtCases, parse, isTrial, read);
    TrialDocketsAreBound(courtCases, parse, isTrial, read);
    MergeIsAccepted(existing, dockets, set iri | iri in courtCases);
    ValidIsMonotone(existing, set iri | iri in courtCases, set iri | iri in courtCases);
    forall d | d in dockets
      ensures !Overtaken(TargetIn(existing, dockets, d), d)
    {
      TargetHasCourtDates(existing, dockets, d);
      CourtDatesAreNotOvertaken(TargetIn(existing, dockets, d), d);
    }
  }

  const KEPT_END := NEW_FIRST_INSTANCE.(iri := "d", end := "20250301")
  const LATER_START := Docket("d", "2025-06-01", "")

  lemma KeptEndIsValid()
    ensures ValidRecord(KEPT_END, Some({"d"}))
  {
    MarchMisjudged();
    ValidRecordExactly(KEPT_END, Some({"d"}));
  }

  lemma LaterStartOvertakes()
    ensures Valid([KEPT_END], Some({"d"})) && FromCourt(LATER_START) && Overtaken(KEPT_END, LATER_START)
  {
    KeptEndIsValid();
    MarchMisjudged();
    assert Dashed("2025-06-01");
    assert KeptApart(LATER_START.start, KEPT_END.end);
  }

  /** The refused document exists: a stored end "20250301", a docket registered 2025-06-01. */
  lemma MergeCanBeRefused()
    ensures Valid([KEPT_END], Some({"d"})) && FromCourt(LATER_START)
    ensures !Valid(Merge([KEPT_END], [LATER_START]), Some({"d"}))
  {
    LaterStartOvertakes();
    assert Objects([KEPT_END]) == [KEPT_END];
    assert FirstCiting([KEPT_END], "d") == 0;
    assert TargetIn([KEPT_END], [LATER_START], LATER_START) == KEPT_END;
    assert LATER_START in [LATER_START];
    MergeIsAccepted([KEPT_END], [LATER_START], {"d"});
  }

  const WEEK_START := NEW_FIRST_INSTANCE.(iri := "d", start := "2026-W53-7")
  const EARLIER_END := Docket("d", "", "2027-01-02")

  /** The week-spelled start is 2027-01-03, a day of the next year. */
  lemma WeekStartIsOvertaken()
    ensures Valid([WEEK_START], Some({"d"})) && FromCourt(EARLIER_END) && Overtaken(WEEK_START, EARLIER_END)
  {
    NewYearMisjudged();
    assert Dashed(EARLIER_END.end);
  }

  /** So does one over a kept start: a stored start "2026-W53-7", a docket decided 2027-01-02. */
  lemma MergeCanBeRefusedOverAStart()
    ensures Valid([WEEK_START], Some({"d"})) && FromCourt(EARLIER_END)
    ensures !Valid(Merge([WEEK_START], [EARLIER_END]), Some({"d"}))
  {
    WeekStartIsOvertaken();
    assert Objects([WEEK_START]) == [WEEK_START];
    assert FirstCiting([WEEK_START], "d") == 0;
    assert TargetIn([WEEK_START], [EARLIER_END], EARLIER_END) == WEEK_START;
    assert EARLIER_END in [EARLIER_END];
    MergeIsAccepted([WEEK_START], [EARLIER_END], {"d"});
  }

  // ----- what the merge keeps -----

  /** How a stage of the list may change: dates replaced, a missing docket filled in. */
  predicate Refines(before: Stage, after: Stage) {
    && before.Stage? && after.Stage?
    && after == before.(start := after.start, end := after.end, iri := after.iri)
    && (before.start != "" ==> after.start != "")
    && (before.end != "" ==> after.end != "")
    && (before.iri != "" ==> after.iri == before.iri)
  }

  /** How many dockets found neither their own stage nor one to adopt. */
  function Unplaced(stages: seq<Stage>, adopt: Option<nat>, dockets: seq<Docket>): nat
    requires AllRecords(stages) && (adopt.Some? ==> adopt.value < |stages|)
  {
    if dockets == [] then 0
    else Unplaced(stages, adopt, dockets[..|dockets| - 1])
         + if TargetAt(stages, adopt, dockets[|dockets| - 1]) == |stages| then 1 else 0
  }

  lemma {:induction false} UnplacedFromFront(stages: seq<Stage>, adopt: Option<nat>, dockets: seq<Docket>)
    requires AllRecords(stages) && (adopt.Some? ==> adopt.value < |stages|) && dockets != []
    ensures Unplaced(stages, adopt, dockets)
            == Unplaced(stages, adopt, dockets[1..])
               + if TargetAt(stages, adopt, dockets[0]) == |stages| then 1 else 0
  {
    if |dockets| > 1 {
      var front := dockets[..|dockets| - 1];
      UnplacedFromFront(stages, adopt, front);
      assert front[1..] == dockets[1..][..|dockets| - 2];
    }
  }

  lemma {:induction false} UnplacedIsDetermined(
    a: seq<Stage>, adoptA: Option<nat>, b: seq<Stage>, adoptB: Option<nat>, dockets: seq<Docket>)
    requires AllRecords(a) && (adoptA.Some? ==> adoptA.value < |a|)
    requires AllRecords(b) && (adoptB.Some? ==> adoptB.value < |b|)
    requires forall d | d in dockets :: TargetAt(a, adoptA, d) < |a| <==> TargetAt(b, adoptB, d) < |b|
    ensures Unplaced(a, adoptA, dockets) == Unplaced(b, adoptB, dockets)
  {
    if dockets != [] {
      UnplacedIsDetermined(a, adoptA, b, adoptB, dockets[..|dockets| - 1]);
    }
  }

  /** The docket a stage settles: cited first by it, and applying it again changes nothing. */
  predicate Settles(stages: seq<Stage>, d: Docket)
    requires AllRecords(stages)
  {
    var m := FirstCiting(stages, d.iri);
    m < |stages| && Applied(stages[m], d) == stages[m]
  }

  lemma StepSettles(stages: seq<Stage>, adopt: Option<nat>, d: Docket)
    requires Mergeable(stages, adopt, [d])
    ensures Settles(Step(stages, adopt, d).0, d)
  {
    var at := TargetAt(stages, adopt, d);
    var next := Step(stages, adopt, d).0;
    var cited := TargetOf(stages, adopt, d).(iri := d.iri);
    AppliedIsSettled(cited, d);
    assert next[at] == Applied(cited, d);
    assert forall i | 0 <= i < at :: next[i] == stages[i];
    if FirstCiting(stages, d.iri) == |stages| {
      assert forall i | 0 <= i < |stages| :: stages[i].iri != d.iri;
    }
    assert FirstCiting(next, d.iri) == at;
  }

  lemma SettledStays(stages: seq<Stage>, adopt: Option<nat>, d: Docket, other: Docket)
    requires Mergeable(stages, adopt, [d]) && d.iri != other.iri && other.iri != "" && Settles(stages, other)
    ensures Settles(Step(stages, adopt, d).0, other)
  {
    var at := TargetAt(stages, adopt, d);
    var next := Step(stages, adopt, d).0;
    var m := FirstCiting(stages, other.iri);
    assert m != at;
    assert next[at].iri == d.iri;
    assert forall i | 0 <= i < |stages| && i != at :: next[i] == stages[i];
    assert FirstCiting(next, other.iri) == m;
  }

  lemma {:induction false} SettledThrough(
    stages: seq<Stage>, adopt: Option<nat>, dockets: seq<Docket>, other: Docket)
    requires Mergeable(stages, adopt, dockets) && other.iri != "" && Settles(stages, other)
    requires forall d | d in dockets :: d.iri != other.iri
    ensures Settles(MergeFrom(stages, adopt, dockets), other)
    decreases dockets
  {
    if dockets != [] {
      var (next, left) := Step(stages, adopt, dockets[0]);
      StepKeepsOthers(stages, adopt, dockets);
      SettledStays(stages, adopt, dockets[0], other);
      assert forall d | d in dockets[1..] :: d in dockets;
      SettledThrough(next, left, dockets[1..], other);
    }
  }

  lemma UnplacedOfTheRest(stages: seq<Stage>, adopt: Option<nat>, dockets: seq<Docket>)
    requires Mergeable(stages, adopt, dockets) && dockets != []
    ensures var (next, left) := Step(stages, adopt, dockets[0]);
            && Mergeable(next, left, dockets[1..])
            && Unplaced(next, left, dockets[1..]) == Unplaced(stages, adopt, dockets[1..])
  {
    var (next, left) := Step(stages, adopt, dockets[0]);
    StepKeepsOthers(stages, adopt, dockets);
    UnplacedIsDetermined(next, left, stages, adopt, dockets[1..]);
  }

  lemma {:induction false} MergeFromGrows(stages: seq<Stage>, adopt: Option<nat>, dockets: seq<Docket>)
    requires Mergeable(stages, adopt, dockets)
    ensures |MergeFrom(stages, adopt, dockets)| == |stages| + Unplaced(stages, adopt, dockets)
    decreases dockets
  {
    if dockets != [] {
      var (next, left) := Step(stages, adopt, dockets[0]);
      UnplacedOfTheRest(stages, adopt, dockets);
      MergeFromGrows(next, left, dockets[1..]);
      UnplacedFromFront(stages, adopt, dockets);
    }
  }

  lemma {:induction false} MergeFromSettles(stages: seq<Stage>, adopt: Option<nat>, dockets: seq<Docket>)
    requires Mergeable(stages, adopt, dockets)
    ensures forall d | d in dockets :: Settles(MergeFrom(stages, adopt, dockets), d)
    decreases dockets
  {
    if dockets != [] {
      var (next, left) := Step(stages, adopt, dockets[0]);
      StepKeepsOthers(stages, adopt, dockets);
      MergeFromSettles(next, left, dockets[1..]);
      StepSettles(stages, adopt, dockets[0]);
      SettledThrough(next, left, dockets[1..], dockets[0]);
      assert forall x :: x in dockets <==> x == dockets[0] || x in dockets[1..];
    }
  }

  lemma StepRefines(stages: seq<Stage>, adopt: Option<nat>, d: Docket)
    requires Mergeable(stages, adopt, [d])
    ensures var next := Step(stages, adopt, d).0;
            && (forall i | 0 <= i < |stages| :: Refines(stages[i], next[i]))
            && (forall i | 0 <= i < |stages| && stages[i].iri == "" && next[i].iri != "" :: adopt == Some(i))
  {
    var at := TargetAt(stages, adopt, d);
    var next := Step(stages, adopt, d).0;
    assert forall i | 0 <= i < |stages| && i != at :: next[i] == stages[i];
    if at < |stages| {
      assert d in [d];
      assert next[at] == Applied(stages[at].(iri := d.iri), d);
      assert Refines(stages[at], next[at]);
    }
  }

  lemma {:induction false} MergeFromRefines(stages: seq<Stage>, adopt: Option<nat>, dockets: seq<Docket>)
    requires Mergeable(stages, adopt, dockets)
    ensures var r := MergeFrom(stages, adopt, dockets);
            && (forall i | 0 <= i < |stages| :: Refines(stages[i], r[i]))
            && (forall i | 0 <= i < |stages| && stages[i].iri == "" && r[i].iri != "" :: adopt == Some(i))
    decreases dockets
  {
    if dockets != [] {
      var (next, left) := Step(stages, adopt, dockets[0]);
      StepKeepsOthers(stages, adopt, dockets);
      assert dockets[0] in dockets;
      StepRefines(stages, adopt, dockets[0]);
      MergeFromRefines(next, left, dockets[1..]);
    }
  }

  /**
   Every record the case had keeps its place and its kind, text and notes; no stored date is
   removed; only the adopted stage gains a docket; every docket is cited in the end; the list
   grows by exactly the dockets neither matched nor adopted.
   */
  lemma MergeKeepsTheCase(existing: seq<Stage>, dockets: seq<Docket>)
    requires Distinct(Iris(dockets)) && forall d | d in dockets :: d.iri != ""
    ensures var r, records := Merge(existing, dockets), Objects(existing);
            var adopt := Adoptable(records, |dockets|);
            && AllRecords(records)
            && |r| == |records| + Unplaced(records, adopt, dockets)
            && (forall i | 0 <= i < |records| :: Refines(records[i], r[i]))
            && (forall i | 0 <= i < |records| && records[i].iri == "" && r[i].iri != "" :: adopt == Some(i))
            && (forall d | d in dockets :: exists i :: 0 <= i < |r| && r[i].iri == d.iri)
  {
    ObjectsAreRecords(existing);
    var records := Objects(existing);
    RecordsAreMergeable(records, dockets);
    var r := Merge(existing, dockets);
    var adopt := Adoptable(records, |dockets|);
    MergeFromGrows(records, adopt, dockets);
    MergeFromRefines(records, adopt, dockets);
    MergeFromSettles(records, adopt, dockets);
    forall d | d in dockets
      ensures exists i :: 0 <= i < |r| && r[i].iri == d.iri
    {
      assert r[FirstCiting(r, d.iri)].iri == d.iri;
    }
  }

  // ----- which stage is adopted -----

  predicate CitedIn(records: seq<Stage>, iri: string) {
    exists i | 0 <= i < |records| :: records[i].Stage? && records[i].iri == iri
  }

  /** A first instance without a docket, and the first one of the list. */
  predicate FirstUncited(records: seq<Stage>, i: nat) {
    && i < |records| && records[i].Stage? && records[i].kind == "initial" && records[i].iri == ""
    && forall j | 0 <= j < i :: !(records[j].Stage? && records[j].kind == "initial" && records[j].iri == "")
  }

  lemma {:induction false} AdoptableIsFirst(records: seq<Stage>)
    requires AllRecords(records)
    ensures match Adoptable(records, 1)
            case Some(i) => FirstUncited(records, i)
            case None => forall i | 0 <= i < |records| :: records[i].kind == "initial" ==> records[i].iri != ""
  {
    if records != [] {
      AdoptableIsFirst(records[..|records| - 1]);
      assert forall j | 0 <= j < |records| - 1 :: records[..|records| - 1][j] == records[j];
    }
  }

  lemma FirstUncitedIsUnique(records: seq<Stage>, i: nat, j: nat)
    requires FirstUncited(records, i) && FirstUncited(records, j)
    ensures i == j
  {
  }

  lemma UncitedIsNotFound(records: seq<Stage>, iri: string)
    requires AllRecords(records)
    ensures FirstCiting(records, iri) == |records| <==> !CitedIn(records, iri)
  {
  }

  /**
   One docket that no record cites goes to the first first instance without a docket, which
   keeps its place; the list does not grow and no other record changes.
   */
  lemma OneDocketIsAdopted(existing: seq<Stage>, d: Docket, i: nat)
    requires d.iri != "" && !CitedIn(Objects(existing), d.iri) && FirstUncited(Objects(existing), i)
    ensures var records := Objects(existing);
            Merge(existing, [d]) == records[i := Applied(records[i].(iri := d.iri), d)]
  {
    ObjectsAreRecords(existing);
    var records := Objects(existing);
    AdoptableIsFirst(records);
    FirstUncitedIsUnique(records, i, Adoptable(records, 1).value);
    UncitedIsNotFound(records, d.iri);
    assert MergeFrom(records, Some(i), [d]) == Step(records, Some(i), d).0;
  }

  /** The dockets that no record cites. */
  function UncitedCount(records: seq<Stage>, dockets: seq<Docket>): nat {
    if dockets == [] then 0
    else UncitedCount(records, dockets[..|dockets| - 1])
         + if CitedIn(records, dockets[|dockets| - 1].iri) then 0 else 1
  }

  lemma {:induction false} UnplacedAreUncited(records: seq<Stage>, adopt: Option<nat>, dockets: seq<Docket>)
    requires AllRecords(records) && (adopt.Some? ==> adopt.value < |records|)
    requires adopt == None || forall d | d in dockets :: CitedIn(records, d.iri)
    ensures Unplaced(records, adopt, dockets) == UncitedCount(records, dockets)
  {
    if dockets != [] {
      UnplacedAreUncited(records, adopt, dockets[..|dockets| - 1]);
      UncitedIsNotFound(records, dockets[|dockets| - 1].iri);
      assert dockets[|dockets| - 1] in dockets;
    }
  }

  /** Several dockets, a docket that is cited, or no first instance to adopt: nothing may be adopted. */
  predicate NothingToAdopt(records: seq<Stage>, dockets: seq<Docket>) {
    || |dockets| != 1 || CitedIn(records, dockets[0].iri)
    || forall i | 0 <= i < |records| && records[i].Stage? && records[i].kind == "initial" :: records[i].iri != ""
  }

  lemma MatchedDocketAdoptsNothing(records: seq<Stage>, d: Docket, i: nat)
    requires AllRecords(records) && d.iri != "" && CitedIn(records, d.iri)
    requires i < |records| && records[i].iri == ""
    ensures MergeFrom(records, Adoptable(records, 1), [d])[i] == records[i]
  {
    UncitedIsNotFound(records, d.iri);
    var adopt := Adoptable(records, 1);
    assert MergeFrom(records, adopt, [d]) == Step(records, adopt, d).0;
  }

  /** Then no record without a docket changes, and the list grows by the dockets no record cites. */
  lemma OtherwiseNothingIsAdopted(existing: seq<Stage>, dockets: seq<Docket>)
    requires Distinct(Iris(dockets)) && forall d | d in dockets :: d.iri != ""
    requires NothingToAdopt(Objects(existing), dockets)
    ensures var r, records := Merge(existing, dockets), Objects(existing);
            && |r| == |records| + UncitedCount(records, dockets)
            && forall i | 0 <= i < |records| && records[i].Stage? && records[i].iri == "" :: r[i] == records[i]
  {
    ObjectsAreRecords(existing);
    var records := Objects(existing);
    var adopt := Adoptable(records, |dockets|);
    RecordsAreMergeable(records, dockets);
    AdoptableIsFirst(records);
    MergeFromGrows(records, adopt, dockets);
    UnplacedAreUncited(records, adopt, dockets);
    forall i | 0 <= i < |records| && records[i].iri == ""
      ensures MergeFrom(records, adopt, dockets)[i] == records[i]
    {
      if adopt == None {
        Untouched(records, adopt, dockets, i);
      } else {
        assert dockets == [dockets[0]] && dockets[0] in dockets;
        MatchedDocketAdoptsNothing(records, dockets[0], i);
      }
    }
  }

  lemma {:induction false} SettledMergeIsIdentity(stages: seq<Stage>, adopt: Option<nat>, dockets: seq<Docket>)
    requires AllRecords(stages) && (adopt.Some? ==> adopt.value < |stages|)
    requires forall d | d in dockets :: Settles(stages, d)
    ensures MergeFrom(stages, adopt, dockets) == stages
    decreases dockets
  {
    if dockets != [] {
      assert dockets[0] in dockets;
      var m := FirstCiting(stages, dockets[0].iri);
      assert stages[m].(iri := dockets[0].iri) == stages[m];
      assert Step(stages, adopt, dockets[0]).0 == stages;
      assert forall d | d in dockets[1..] :: d in dockets;
      SettledMergeIsIdentity(stages, adopt, dockets[1..]);
    }
  }

  /** Re-running the merge over its own output changes nothing. */
  lemma MergeIsIdempotent(existing: seq<Stage>, dockets: seq<Docket>)
    requires Distinct(Iris(dockets)) && forall d | d in dockets :: d.iri != ""
    ensures Merge(Merge(existing, dockets), dockets) == Merge(existing, dockets)
  {
    ObjectsAreRecords(existing);
    var records := Objects(existing);
    RecordsAreMergeable(records, dockets);
    var r := Merge(existing, dockets);
    MergeFromSettles(records, Adoptable(records, |dockets|), dockets);
    ObjectsOfRecords(r);
    SettledMergeIsIdentity(r, Adoptable(r, |dockets|), dockets);
  }

  /** The stage a docket that matches none becomes: its start, and its end unless that inverts. */
  function FreshStage(d: Docket): Stage {
    NEW_FIRST_INSTANCE.(iri := d.iri, start := d.start,
                        end := if Orderable(d.start, d.end) then d.end else "")
  }

  predicate AddedFor(s: Stage, dockets: seq<Docket>) {
    exists k | 0 <= k < |dockets| :: s == FreshStage(dockets[k])
  }

  lemma NewStageIsFresh(d: Docket)
    ensures Applied(NEW_FIRST_INSTANCE.(iri := d.iri), d) == FreshStage(d)
  {
  }

  lemma AddedLater(s: Stage, dockets: seq<Docket>)
    requires dockets != [] && AddedFor(s, dockets[1..])
    ensures AddedFor(s, dockets)
  {
    var k :| 0 <= k < |dockets[1..]| && s == FreshStage(dockets[1..][k]);
    assert s == FreshStage(dockets[k + 1]);
  }

  /** A stage this step appends comes through the rest of the merge. */
  lemma AddedNow(stages: seq<Stage>, adopt: Option<nat>, dockets: seq<Docket>)
    requires dockets != [] && Mergeable(stages, adopt, dockets)
    requires TargetAt(stages, adopt, dockets[0]) == |stages|
    ensures var (next, left) := Step(stages, adopt, dockets[0]);
            |next| == |stages| + 1
            && MergeFrom(next, left, dockets[1..])[|stages|] == FreshStage(dockets[0])
  {
    var (next, left) := Step(stages, adopt, dockets[0]);
    StepKeepsOthers(stages, adopt, dockets);
    NewStageIsFresh(dockets[0]);
    Untouched(next, left, dockets[1..], |stages|);
  }

  lemma {:induction false} MergeFromAppends(stages: seq<Stage>, adopt: Option<nat>, dockets: seq<Docket>, i: nat)
    requires Mergeable(stages, adopt, dockets) && |stages| <= i < |MergeFrom(stages, adopt, dockets)|
    ensures AddedFor(MergeFrom(stages, adopt, dockets)[i], dockets)
    decreases dockets
  {
    var (next, left) := Step(stages, adopt, dockets[0]);
    if i < |next| {
      assert i == |stages|;
      AddedNow(stages, adopt, dockets);
      assert MergeFrom(stages, adopt, dockets)[i] == FreshStage(dockets[0]);
    } else {
      StepKeepsOthers(stages, adopt, dockets);
      MergeFromAppends(next, left, dockets[1..], i);
      AddedLater(MergeFrom(next, left, dockets[1..])[i], dockets);
    }
  }

  /** Every stage the merge adds is the new first-instance stage of one of the dockets. */
  lemma MergeAppendsOnlyDockets(existing: seq<Stage>, dockets: seq<Docket>)
    requires Distinct(Iris(dockets)) && forall d | d in dockets :: d.iri != ""
    ensures var r := Merge(existing, dockets);
            forall i | |Objects(existing)| <= i < |r| :: AddedFor(r[i], dockets)
  {
    ObjectsAreRecords(existing);
    var records := Objects(existing);
    RecordsAreMergeable(records, dockets);
    var adopt := Adoptable(records, |dockets|);
    forall i | |records| <= i < |Merge(existing, dockets)|
      ensures AddedFor(Merge(existing, dockets)[i], dockets)
    {
      MergeFromAppends(records, adopt, dockets, i);
    }
  }
}
