/**
 The stage list of a case (cases/stages.py): which documents the server accepts, the two
 dates derived from a list, and the deprecated pair of dates as a view of it.

 A JSON record is modelled by its known keys plus the names of any others. An absent key, a
 JSON null and the empty string are told apart by no reader of a stage, so all three are "".
 */
module Stages {
  import opened Common
  import opened TextDates

  datatype Stage =
    | NotAnObject
    | Stage(
        kind: string,
        start: string,
        end: string,
        iri: string,
        labelText: string,
        body: string,
        notes: string,
        extra: set<string>)

  const INVESTIGATION := "investigation"
  const INITIAL := "initial"
  const APPEAL := "appeal"
  const REVIEW := "review"
  const OTHER := "other"
  const STAGE_VALUES: set<string> := {INVESTIGATION, INITIAL, APPEAL, REVIEW, OTHER}
  const COURT_STAGES: set<string> := {INITIAL, APPEAL, REVIEW}
  const NOTES_MAX_CHARS := 500
  const BODY_MAX_CHARS := 200
  const LABEL_MAX_CHARS := 200

  const NEW_FIRST_INSTANCE := Stage(INITIAL, "", "", "", "", "", "", {})

  // ----- dates of a record -----

  /** `_parse_date` on a stored half: "" is no date, unreadable text is an error. */
  predicate ReadableDate(text: string) {
    text == "" || ParseDate(text).Some?
  }

  /** The day a readable text names; 0 for a text that names none. */
  function DayOf(text: string): int {
    if ParseDate(text).Some? then ParseDate(text).value else 0
  }

  predicate InOrder(start: string, end: string) {
    start != "" && end != "" ==> DayOf(start) <= DayOf(end)
  }

  predicate Blank(text: string) {
    forall i | 0 <= i < |text| :: text[i] in BLANKS
  }

  // ----- validate_stages -----

  /** The rules of a stage record, in the order the server checks them. */
  datatype Rule =
    | IsObject | KnownKeys | KnownKind | OtherIsLabelled | OnlyOtherIsLabelled
    | ReadableStart | ReadableEnd | EndNotBeforeStart | CitesABoundDocket
    | NotesFit | BodyFits | LabelFits

  const RULES: seq<Rule> := [
    IsObject, KnownKeys, KnownKind, OtherIsLabelled, OnlyOtherIsLabelled,
    ReadableStart, ReadableEnd, EndNotBeforeStart, CitesABoundDocket,
    NotesFit, BodyFits, LabelFits]

  datatype StageError = StageError(index: nat, rule: Rule)

  /** `binds` None: no case in hand, the docket rule is not checked. Some({}): nothing is bound. */
  predicate Obeys(rule: Rule, s: Stage, binds: Option<set<string>>) {
    if s.NotAnObject? then rule != IsObject else
      match rule
      case IsObject => true
      case KnownKeys => s.extra == {}
      case KnownKind => s.kind in STAGE_VALUES
      case OtherIsLabelled => s.kind == OTHER ==> !Blank(s.labelText)
      case OnlyOtherIsLabelled => s.kind != OTHER ==> s.labelText == ""
      case ReadableStart => ReadableDate(s.start)
      case ReadableEnd => ReadableDate(s.end)
      case EndNotBeforeStart => InOrder(s.start, s.end)
      case CitesABoundDocket => s.iri != "" && binds.Some? ==> s.iri in binds.value
      case NotesFit => |s.notes| <= NOTES_MAX_CHARS
      case BodyFits => |s.body| <= BODY_MAX_CHARS
      case LabelFits => |s.labelText| <= LABEL_MAX_CHARS
  }

  predicate ValidRecord(s: Stage, binds: Option<set<string>>) {
    forall k | 0 <= k < |RULES| :: Obeys(RULES[k], s, binds)
  }

  predicate Valid(stages: seq<Stage>, binds: Option<set<string>>) {
    forall i | 0 <= i < |stages| :: ValidRecord(stages[i], binds)
  }

  lemma EveryRuleIsListed(rule: Rule)
    ensures rule in RULES
  {
    assert RULES[0] == IsObject && RULES[1] == KnownKeys && RULES[2] == KnownKind;
    assert RULES[3] == OtherIsLabelled && RULES[4] == OnlyOtherIsLabelled;
    assert RULES[5] == ReadableStart && RULES[6] == ReadableEnd && RULES[7] == EndNotBeforeStart;
    assert RULES[8] == CitesABoundDocket && RULES[9] == NotesFit && RULES[10] == BodyFits;
    assert RULES[11] == LabelFits;
  }

  /** What a valid record gives: every rule, by name. */
  lemma ValidRecordObeys(s: Stage, binds: Option<set<string>>, rule: Rule)
    requires ValidRecord(s, binds)
    ensures Obeys(rule, s, binds)
  {
    EveryRuleIsListed(rule);
  }

  lemma ValidRecordObeysAll(s: Stage, binds: Option<set<string>>)
    ensures ValidRecord(s, binds) <==> forall rule: Rule :: Obeys(rule, s, binds)
  {
    if ValidRecord(s, binds) {
      forall rule: Rule
        ensures Obeys(rule, s, binds)
      {
        ValidRecordObeys(s, binds, rule);
      }
    }
  }

  /**
   What the server takes, in full: an object of known keys and one of the five kinds, a label
   exactly on `other`, readable dates in order, a bound docket or none, and texts that fit.
   */
  lemma ValidRecordExactly(s: Stage, binds: Option<set<string>>)
    ensures ValidRecord(s, binds)
            <==> && s.Stage? && s.extra == {}
                 && s.kind in {"investigation", "initial", "appeal", "review", "other"}
                 && (if s.kind == "other" then exists i | 0 <= i < |s.labelText| :: !IsBlank(s.labelText[i])
                     else s.labelText == "")
                 && (s.start == "" || ParseDate(s.start).Some?)
                 && (s.end == "" || ParseDate(s.end).Some?)
                 && (s.start != "" && s.end != "" ==> ParseDate(s.start).value <= ParseDate(s.end).value)
                 && (s.iri == "" || binds == None || s.iri in binds.value)
                 && |s.notes| <= 500 && |s.body| <= 200 && |s.labelText| <= 200
  {
    ValidRecordObeysAll(s, binds);
    assert (forall rule: Rule :: Obeys(rule, s, binds))
        <==> && Obeys(IsObject, s, binds) && Obeys(KnownKeys, s, binds) && Obeys(KnownKind, s, binds)
             && Obeys(OtherIsLabelled, s, binds) && Obeys(OnlyOtherIsLabelled, s, binds)
             && Obeys(ReadableStart, s, binds) && Obeys(ReadableEnd, s, binds) && Obeys(EndNotBeforeStart, s, binds)
             && Obeys(CitesABoundDocket, s, binds) && Obeys(NotesFit, s, binds) && Obeys(BodyFits, s, binds)
             && Obeys(LabelFits, s, binds);
  }

  /** A valid list is a list of objects, and stays valid when more dockets are bound. */
  lemma ValidIsMonotone(stages: seq<Stage>, binds: set<string>, more: set<string>)
    requires Valid(stages, Some(binds)) && binds <= more
    ensures Valid(stages, Some(more))
    ensures forall i | 0 <= i < |stages| :: stages[i].Stage?
  {
    forall i | 0 <= i < |stages|
      ensures ValidRecord(stages[i], Some(more)) && stages[i].Stage?
    {
      ValidRecordObeys(stages[i], Some(binds), IsObject);
      forall k | 0 <= k < |RULES|
        ensures Obeys(RULES[k], stages[i], Some(more))
      {
        assert Obeys(RULES[k], stages[i], Some(binds));
      }
    }
  }

  /** The list without its elements that are not objects. */
  function Objects(stages: seq<Stage>): (records: seq<Stage>)
  {
    if stages == [] then []
    else
      var n := |stages| - 1;
      Objects(stages[..n]) + if stages[n].Stage? then [stages[n]] else []
  }

  lemma ObjectsSnoc(stages: seq<Stage>, s: Stage)
    ensures Objects(stages + [s]) == Objects(stages) + if s.Stage? then [s] else []
  {
    assert (stages + [s])[..|stages|] == stages;
  }

  predicate AllRecords(stages: seq<Stage>) {
    forall i | 0 <= i < |stages| :: stages[i].Stage?
  }

  lemma {:induction false} ObjectsOfRecords(stages: seq<Stage>)
    requires AllRecords(stages)
    ensures Objects(stages) == stages
  {
    if stages != [] {
      ObjectsOfRecords(stages[..|stages| - 1]);
    }
  }

  lemma {:induction false} ObjectsAreRecords(stages: seq<Stage>)
    ensures AllRecords(Objects(stages))
  {
    if stages != [] {
      ObjectsAreRecords(stages[..|stages| - 1]);
    }
  }

  /** `validate_stages`: the records, or the first broken rule of the first bad record. */
  method ValidateStages(stages: seq<Stage>, binds: Option<set<string>>)
    returns (r: Result<seq<Stage>, StageError>)
    ensures r.Ok? <==> Valid(stages, binds)
    ensures r.Ok? ==> r.value == stages
    ensures r.Err? ==>
      && r.error.index < |stages|
      && Valid(stages[..r.error.index], binds)
      && exists k | 0 <= k < |RULES| ::
           && RULES[k] == r.error.rule
           && !Obeys(RULES[k], stages[r.error.index], binds)
           && forall j | 0 <= j < k :: Obeys(RULES[j], stages[r.error.index], binds)
  {
    var validated: seq<Stage> := [];
    for index := 0 to |stages|
      invariant Valid(stages[..index], binds)
      invariant validated == stages[..index]
    {
      for k := 0 to |RULES|
        invariant forall j | 0 <= j < k :: Obeys(RULES[j], stages[index], binds)
      {
        if !Obeys(RULES[k], stages[index], binds) {
          return Err(StageError(index, RULES[k]));
        }
      }
      validated := validated + [stages[index]];
    }
    return Ok(validated);
  }

  // ----- derived_proceeding_dates -----

  /** A court stage whose two halves can both be read; the others are skipped. */
  predicate InCourt(s: Stage) {
    s.Stage? && s.kind in COURT_STAGES && ReadableDate(s.start) && ReadableDate(s.end)
  }

  function Starts(stages: seq<Stage>): set<int> {
    set s | s in stages && InCourt(s) && s.start != "" :: DayOf(s.start)
  }

  function Ends(stages: seq<Stage>): set<int> {
    set s | s in stages && InCourt(s) && s.end != "" :: DayOf(s.end)
  }

  predicate AnyOpen(stages: seq<Stage>) {
    exists s :: s in stages && InCourt(s) && s.end == ""
  }

  /** `earliest` is the least member of `days`, and None exactly when there is none. */
  predicate IsEarliest(days: set<int>, earliest: Option<int>) {
    match earliest
    case None => days == {}
    case Some(d) => d in days && forall x | x in days :: d <= x
  }

  predicate IsLatest(days: set<int>, latest: Option<int>) {
    match latest
    case None => days == {}
    case Some(d) => d in days && forall x | x in days :: x <= d
  }

  /** The earliest court start; the latest court end, none while any court stage is open. */
  ghost predicate IsDerived(stages: seq<Stage>, started: Option<int>, decided: Option<int>) {
    && IsEarliest(Starts(stages), started)
    && if AnyOpen(stages) then decided == None else IsLatest(Ends(stages), decided)
  }

  ghost function Pick<T>(s: set<T>): (x: T)
    requires s != {}
    ensures x in s
  {
    var x :| x in s; x
  }

  ghost function Earliest(days: set<int>): (d: Option<int>)
    ensures IsEarliest(days, d)
  {
    if days == {} then None else
      var x := Pick(days);
      assert days == {x} + (days - {x});
      var rest := Earliest(days - {x});
      if rest.None? || x <= rest.value then Some(x) else rest
  }

  ghost function Latest(days: set<int>): (d: Option<int>)
    ensures IsLatest(days, d)
  {
    if days == {} then None else
      var x := Pick(days);
      assert days == {x} + (days - {x});
      var rest := Latest(days - {x});
      if rest.None? || rest.value <= x then Some(x) else rest
  }

  ghost function Derived(stages: seq<Stage>): (Option<int>, Option<int>) {
    (Earliest(Starts(stages)), if AnyOpen(stages) then None else Latest(Ends(stages)))
  }

  lemma DerivedIsDerived(stages: seq<Stage>)
    ensures IsDerived(stages, Derived(stages).0, Derived(stages).1)
  {
  }

  lemma ExtremesAreUnique(days: set<int>, a: Option<int>, b: Option<int>)
    ensures IsEarliest(days, a) && IsEarliest(days, b) ==> a == b
    ensures IsLatest(days, a) && IsLatest(days, b) ==> a == b
  {
  }

  /** The two dates of a list are determined by it. */
  lemma DerivedIsUnique(stages: seq<Stage>, started: Option<int>, decided: Option<int>)
    requires IsDerived(stages, started, decided)
    ensures (started, decided) == Derived(stages)
  {
    var dates := Derived(stages);
    DerivedIsDerived(stages);
    ExtremesAreUnique(Starts(stages), started, dates.0);
    ExtremesAreUnique(Ends(stages), decided, dates.1);
  }

  function Earlier(d: Option<int>, x: int): Option<int> {
    if d.None? || x < d.value then Some(x) else d
  }

  function Later(d: Option<int>, x: int): Option<int> {
    if d.None? || d.value < x then Some(x) else d
  }

  lemma ExtendExtremes(days: set<int>, d: Option<int>, x: int)
    ensures IsEarliest(days, d) ==> IsEarliest(days + {x}, Earlier(d, x))
    ensures IsLatest(days, d) ==> IsLatest(days + {x}, Later(d, x))
  {
  }

  lemma SnocStarts(stages: seq<Stage>, s: Stage, d: Option<int>)
    requires IsEarliest(Starts(stages), d)
    ensures IsEarliest(Starts(stages + [s]), if InCourt(s) && s.start != "" then Earlier(d, DayOf(s.start)) else d)
  {
    if InCourt(s) && s.start != "" {
      assert Starts(stages + [s]) == Starts(stages) + {DayOf(s.start)};
      ExtendExtremes(Starts(stages), d, DayOf(s.start));
    } else {
      assert Starts(stages + [s]) == Starts(stages);
    }
  }

  lemma SnocEnds(stages: seq<Stage>, s: Stage, d: Option<int>)
    requires IsLatest(Ends(stages), d)
    ensures IsLatest(Ends(stages + [s]), if InCourt(s) && s.end != "" then Later(d, DayOf(s.end)) else d)
  {
    if InCourt(s) && s.end != "" {
      assert Ends(stages + [s]) == Ends(stages) + {DayOf(s.end)};
      ExtendExtremes(Ends(stages), d, DayOf(s.end));
    } else {
      assert Ends(stages + [s]) == Ends(stages);
    }
  }

  lemma SnocOpen(stages: seq<Stage>, last: Stage)
    ensures AnyOpen(stages + [last]) <==> AnyOpen(stages) || (InCourt(last) && last.end == "")
  {
    if AnyOpen(stages) {
      var s :| s in stages && InCourt(s) && s.end == "";
      assert s in stages + [last];
    }
    if InCourt(last) && last.end == "" {
      assert last in stages + [last];
    }
  }

  /** What the loop has gathered after the listed stages: earliest start, latest end, any open. */
  function Gathered(stages: seq<Stage>): (Option<int>, Option<int>, bool) {
    if stages == [] then (None, None, false)
    else
      var (earliest, latest, anyOpen) := Gathered(stages[..|stages| - 1]);
      var s := stages[|stages| - 1];
      if !InCourt(s) then (earliest, latest, anyOpen)
      else (if s.start != "" then Earlier(earliest, DayOf(s.start)) else earliest,
            if s.end != "" then Later(latest, DayOf(s.end)) else latest,
            anyOpen || s.end == "")
  }

  lemma {:induction false} GatheredIsRight(stages: seq<Stage>)
    ensures IsEarliest(Starts(stages), Gathered(stages).0)
    ensures IsLatest(Ends(stages), Gathered(stages).1)
    ensures Gathered(stages).2 <==> AnyOpen(stages)
  {
    if stages != [] {
      var front, last := stages[..|stages| - 1], stages[|stages| - 1];
      GatheredIsRight(front);
      SnocStarts(front, last, Gathered(front).0);
      SnocEnds(front, last, Gathered(front).1);
      SnocOpen(front, last);
      assert front + [last] == stages;
    }
  }

  method DerivedProceedingDates(stages: seq<Stage>) returns (started: Option<int>, decided: Option<int>)
    ensures (started, decided) == Derived(stages)
  {
    var earliest: Option<int>, latest: Option<int>, anyOpen := None, None, false;
    for i := 0 to |stages|
      invariant (earliest, latest, anyOpen) == Gathered(stages[..i])
    {
      assert stages[..i + 1][..i] == stages[..i];
      var s := stages[i];
      if InCourt(s) {
        if s.start != "" {
          earliest := Earlier(earliest, DayOf(s.start));
        }
        if s.end != "" {
          latest := Later(latest, DayOf(s.end));
        } else {
          anyOpen := true;
        }
      }
    }
    assert stages[..|stages|] == stages;
    started, decided := earliest, if anyOpen then None else latest;
    GatheredIsRight(stages);
    DerivedIsUnique(stages, started, decided);
  }

  /** Only the records matter to the derived dates, not their order or their number. */
  lemma DerivedIgnoresOrder(a: seq<Stage>, b: seq<Stage>)
    requires multiset(a) == multiset(b)
    ensures Derived(a) == Derived(b)
  {
    assert forall s :: s in a <==> s in multiset(a);
    assert forall s :: s in b <==> s in multiset(b);
    assert Starts(a) == Starts(b) && Ends(a) == Ends(b);
    assert AnyOpen(a) <==> AnyOpen(b);
    var (started, decided) := Derived(a);
    DerivedIsDerived(a);
    DerivedIsUnique(b, started, decided);
  }

  predicate HasCourtStage(stages: seq<Stage>) {
    exists s :: s in stages && s.Stage? && s.kind in COURT_STAGES
  }

  predicate HasOpenCourtStage(stages: seq<Stage>) {
    exists s :: s in stages && s.Stage? && s.kind in COURT_STAGES && s.end == ""
  }

  /** Every court stage of a valid list is readable and ends no earlier than it starts. */
  lemma ValidCourtStage(stages: seq<Stage>, binds: Option<set<string>>, s: Stage)
    requires Valid(stages, binds) && s in stages && s.Stage? && s.kind in COURT_STAGES
    ensures InCourt(s) && InOrder(s.start, s.end)
  {
    ValidRecordObeys(s, binds, ReadableStart);
    ValidRecordObeys(s, binds, ReadableEnd);
    ValidRecordObeys(s, binds, EndNotBeforeStart);
  }

  /** What the two columns say about a list the server accepted. */
  lemma DerivedDatesOfValidStages(stages: seq<Stage>, binds: Option<set<string>>)
    requires Valid(stages, binds)
    ensures Derived(stages).1 == None <==> !HasCourtStage(stages) || HasOpenCourtStage(stages)
    ensures !HasCourtStage(stages) ==> Derived(stages) == (None, None)
    ensures Derived(stages).0.Some? && Derived(stages).1.Some?
            ==> Derived(stages).0.value <= Derived(stages).1.value
  {
    var (started, decided) := Derived(stages);
    DerivedIsDerived(stages);
    forall s | s in stages && s.Stage? && s.kind in COURT_STAGES
      ensures InCourt(s) && InOrder(s.start, s.end)
    {
      ValidCourtStage(stages, binds, s);
    }
    if HasCourtStage(stages) && !HasOpenCourtStage(stages) {
      var s :| s in stages && s.Stage? && s.kind in COURT_STAGES;
      assert DayOf(s.end) in Ends(stages);
      assert !AnyOpen(stages);
    }
    if HasOpenCourtStage(stages) {
      var s :| s in stages && s.Stage? && s.kind in COURT_STAGES && s.end == "";
      assert AnyOpen(stages);
    }
    if started.Some? && decided.Some? {
      var s :| s in stages && InCourt(s) && s.start != "" && DayOf(s.start) == started.value;
      assert s.end != "";
      assert DayOf(s.end) in Ends(stages);
    }
  }

  // ----- first_instance_dates and apply_legacy_date -----

  predicate IsInitial(s: Stage) {
    s.Stage? && s.kind == INITIAL
  }

  function CountInitial(records: seq<Stage>): nat {
    if records == [] then 0
    else CountInitial(records[..|records| - 1]) + if IsInitial(records[|records| - 1]) then 1 else 0
  }

  /** Position of the first first-instance record; the length when there is none. */
  function FirstInitial(records: seq<Stage>): (i: nat)
    ensures i <= |records|
    ensures i == |records| <==> CountInitial(records) == 0
    ensures i < |records| ==> IsInitial(records[i])
  {
    if records == [] then 0
    else
      var n := |records| - 1;
      var i := FirstInitial(records[..n]);
      if i < n then i else if IsInitial(records[n]) then n else n + 1
  }

  /** `first_instance_dates`: the pair of the only first instance, ("", "") otherwise. */
  function FirstInstanceDates(stages: seq<Stage>): (string, string) {
    var records := Objects(stages);
    if CountInitial(records) != 1 then ("", "")
    else (records[FirstInitial(records)].start, records[FirstInitial(records)].end)
  }

  datatype LegacyError = NotALegacyField | SeveralFirstInstances

  function SetHalf(s: Stage, key: string, value: string): Stage
    requires s.Stage?
  {
    if key == "start" then s.(start := value) else s.(end := value)
  }

  /** The list after one deprecated date is written, when it can be. */
  function LegacyWrite(stages: seq<Stage>, key: string, value: string): Result<seq<Stage>, LegacyError> {
    var records := Objects(stages);
    if key != "start" && key != "end" then Err(NotALegacyField)
    else if CountInitial(records) > 1 then Err(SeveralFirstInstances)
    else Ok(LegacyTarget(records, key, value))
  }

  /** The write itself, on a list of objects. */
  function LegacyTarget(records: seq<Stage>, key: string, value: string): seq<Stage>
  {
    var i := FirstInitial(records);
    if i < |records| then records[i := SetHalf(records[i], key, value)]
    else if value == "" then records
    else records + [SetHalf(NEW_FIRST_INSTANCE, key, value)]
  }

  method ApplyLegacyDate(stages: seq<Stage>, key: string, value: string)
    returns (r: Result<seq<Stage>, LegacyError>)
    ensures r == LegacyWrite(stages, key, value)
  {
    if key != "start" && key != "end" {
      return Err(NotALegacyField);
    }
    var working: seq<Stage>, initial: nat, target: nat := [], 0, 0;
    for i := 0 to |stages|
      invariant working == Objects(stages[..i])
      invariant initial == CountInitial(working) && target == FirstInitial(working)
    {
      assert stages[..i + 1] == stages[..i] + [stages[i]];
      ObjectsSnoc(stages[..i], stages[i]);
      if stages[i].Stage? {
        InitialSnoc(working, stages[i]);
        if stages[i].kind == INITIAL {
          initial := initial + 1;
        } else if target == |working| {
          target := target + 1;
        }
        working := working + [stages[i]];
      }
    }
    assert stages[..|stages|] == stages;
    if initial > 1 {
      return Err(SeveralFirstInstances);
    }
    if initial == 0 {
      if value == "" {
        return Ok(working);
      }
      return Ok(working + [SetHalf(NEW_FIRST_INSTANCE, key, value)]);
    }
    working := working[target := SetHalf(working[target], key, value)];
    return Ok(working);
  }

  lemma InitialSnoc(records: seq<Stage>, last: Stage)
    ensures CountInitial(records + [last]) == CountInitial(records) + if IsInitial(last) then 1 else 0
    ensures FirstInitial(records + [last])
            == if FirstInitial(records) < |records| || IsInitial(last) then FirstInitial(records) else |records| + 1
  {
    assert (records + [last])[..|records|] == records;
  }

  lemma {:induction false} InitialIsDetermined(a: seq<Stage>, b: seq<Stage>)
    requires |a| == |b| && forall i | 0 <= i < |a| :: IsInitial(a[i]) <==> IsInitial(b[i])
    ensures CountInitial(a) == CountInitial(b) && FirstInitial(a) == FirstInitial(b)
  {
    if a != [] {
      InitialIsDetermined(a[..|a| - 1], b[..|b| - 1]);
    }
  }

  ghost predicate SeveralInitial(records: seq<Stage>) {
    exists i, j :: 0 <= i < j < |records| && IsInitial(records[i]) && IsInitial(records[j])
  }

  /** What the count counts. */
  lemma {:induction false} CountInitialMeans(records: seq<Stage>)
    ensures CountInitial(records) > 0 <==> exists i :: 0 <= i < |records| && IsInitial(records[i])
    ensures CountInitial(records) > 1 <==> SeveralInitial(records)
  {
    if records != [] {
      var n := |records| - 1;
      var front := records[..n];
      CountInitialMeans(front);
      assert forall i | 0 <= i < n :: front[i] == records[i];
      if i :| 0 <= i < n && IsInitial(records[i]) {
        assert IsInitial(front[i]);
      }
      if i, j :| 0 <= i < j < n && IsInitial(records[i]) && IsInitial(records[j]) {
        assert IsInitial(front[i]) && IsInitial(front[j]);
      }
    }
  }

  /** `apply_legacy_date` refuses a known key exactly when several first instances exist. */
  lemma LegacyWriteRefuses(stages: seq<Stage>, key: string, value: string)
    ensures LegacyWrite(stages, key, value).Err?
            <==> key !in {"start", "end"} || SeveralInitial(Objects(stages))
  {
    CountInitialMeans(Objects(stages));
  }

  lemma OverwriteKeepsShape(records: seq<Stage>, i: nat, s: Stage)
    requires AllRecords(records) && i < |records| && s.Stage?
    requires IsInitial(records[i]) <==> IsInitial(s)
    ensures var after := records[i := s];
            && AllRecords(after)
            && CountInitial(after) == CountInitial(records)
            && FirstInitial(after) == FirstInitial(records)
  {
    InitialIsDetermined(records, records[i := s]);
  }

  lemma AppendKeepsShape(records: seq<Stage>, s: Stage)
    requires AllRecords(records) && CountInitial(records) == 0 && IsInitial(s)
    ensures var after := records + [s];
            AllRecords(after) && CountInitial(after) == 1 && FirstInitial(after) == |records|
  {
    InitialSnoc(records, s);
  }

  /** The shape of a write: objects only, and the first instances where they were. */
  lemma LegacyTargetShape(records: seq<Stage>, key: string, value: string)
    requires CountInitial(records) <= 1 && AllRecords(records)
    ensures var after := LegacyTarget(records, key, value);
            && AllRecords(after)
            && CountInitial(after) == (if value != "" then 1 else CountInitial(records))
            && FirstInitial(after) == FirstInitial(records)
  {
    var i := FirstInitial(records);
    if i < |records| {
      OverwriteKeepsShape(records, i, SetHalf(records[i], key, value));
    } else if value != "" {
      AppendKeepsShape(records, SetHalf(NEW_FIRST_INSTANCE, key, value));
    }
  }

  /** On a list of records the two readers work on the list itself. */
  lemma OnRecords(records: seq<Stage>, key: string, value: string)
    requires AllRecords(records) && CountInitial(records) <= 1 && key in {"start", "end"}
    ensures LegacyWrite(records, key, value) == Ok(LegacyTarget(records, key, value))
    ensures FirstInstanceDates(records)
            == if CountInitial(records) != 1 then ("", "")
               else (records[FirstInitial(records)].start, records[FirstInitial(records)].end)
  {
    ObjectsOfRecords(records);
  }

  /** A written date is read back, the other half and every other record is as it was. */
  lemma LegacyWriteIsRead(stages: seq<Stage>, key: string, value: string)
    requires LegacyWrite(stages, key, value).Ok?
    ensures var records, after := Objects(stages), LegacyWrite(stages, key, value).value;
            var (start, end) := FirstInstanceDates(stages);
            && FirstInstanceDates(after)
               == (if key == "start" then value else start, if key == "end" then value else end)
            && |records| <= |after| <= |records| + 1
            && (forall i | 0 <= i < |records| && i != FirstInitial(records) :: after[i] == records[i])
            && (|after| > |records| <==> CountInitial(records) == 0 && value != "")
  {
    var records, after := Objects(stages), LegacyWrite(stages, key, value).value;
    ObjectsAreRecords(stages);
    LegacyTargetShape(records, key, value);
    OnRecords(after, key, value);
    if FirstInitial(records) == |records| && value != "" {
      assert after[|records|] == SetHalf(NEW_FIRST_INSTANCE, key, value);
    }
  }

  /** The start and the end can be written in either order. */
  lemma LegacyWritesCommute(stages: seq<Stage>, start: string, end: string)
    requires LegacyWrite(stages, "start", start).Ok?
    ensures var s, e := LegacyWrite(stages, "start", start).value, LegacyWrite(stages, "end", end);
            && e.Ok? && LegacyWrite(s, "end", end).Ok?
            && LegacyWrite(s, "end", end) == LegacyWrite(e.value, "start", start)
  {
    WrittenTwice(stages, "start", start, "end", end);
    WrittenTwice(stages, "end", end, "start", start);
    var records := Objects(stages);
    ObjectsAreRecords(stages);
    LegacyTargetShape(records, "start", start);
    LegacyTargetShape(records, "end", end);
    LegacyTargetsCommute(records, start, end);
  }

  lemma WrittenTwice(stages: seq<Stage>, first: string, a: string, second: string, b: string)
    requires CountInitial(Objects(stages)) <= 1 && first in {"start", "end"} && second in {"start", "end"}
    ensures LegacyWrite(stages, first, a) == Ok(LegacyTarget(Objects(stages), first, a))
    ensures LegacyWrite(LegacyTarget(Objects(stages), first, a), second, b)
            == Ok(LegacyTarget(LegacyTarget(Objects(stages), first, a), second, b))
  {
    ObjectsAreRecords(stages);
    LegacyTargetShape(Objects(stages), first, a);
    OnRecords(LegacyTarget(Objects(stages), first, a), second, b);
  }

  /** Writing the other half onto the result `once` of a first write. */
  lemma WriteOnto(records: seq<Stage>, once: seq<Stage>, s: Stage, key: string, value: string)
    requires FirstInitial(once) == FirstInitial(records) < |once| && s.Stage?
    requires once == records[..FirstInitial(records)] + [s] + once[FirstInitial(records) + 1..]
    ensures LegacyTarget(once, key, value)
            == records[..FirstInitial(records)] + [SetHalf(s, key, value)] + once[FirstInitial(records) + 1..]
  {
  }

  lemma LegacyTargetsCommute(records: seq<Stage>, start: string, end: string)
    requires FirstInitial(LegacyTarget(records, "start", start)) == FirstInitial(records)
    requires FirstInitial(LegacyTarget(records, "end", end)) == FirstInitial(records)
    ensures LegacyTarget(LegacyTarget(records, "start", start), "end", end)
            == LegacyTarget(LegacyTarget(records, "end", end), "start", start)
  {
    var i := FirstInitial(records);
    var s, e := LegacyTarget(records, "start", start), LegacyTarget(records, "end", end);
    if i < |records| {
      WriteOnto(records, s, SetHalf(records[i], "start", start), "end", end);
      WriteOnto(records, e, SetHalf(records[i], "end", end), "start", start);
    } else {
      if start != "" {
        WriteOnto(records, s, SetHalf(NEW_FIRST_INSTANCE, "start", start), "end", end);
      }
      if end != "" {
        WriteOnto(records, e, SetHalf(NEW_FIRST_INSTANCE, "end", end), "start", start);
      }
    }
  }

  /**
   A second write of the same half overrides the first, except in one case: the first write
   creates the stage and the second blanks it, which leaves an empty stage behind.
   */
  lemma LaterLegacyWriteWins(stages: seq<Stage>, key: string, first: string, second: string)
    requires LegacyWrite(stages, key, first).Ok?
    ensures LegacyWrite(LegacyWrite(stages, key, first).value, key, second)
            == LegacyWrite(stages, key, second)
            <==> CountInitial(Objects(stages)) == 1 || first == "" || second != ""
  {
    var records := Objects(stages);
    ObjectsAreRecords(stages);
    LegacyTargetShape(records, key, first);
    OnRecords(LegacyTarget(records, key, first), key, second);
    LegacyTargetTwice(records, key, first, second);
  }

  lemma LegacyTargetTwice(records: seq<Stage>, key: string, first: string, second: string)
    requires CountInitial(records) <= 1
    requires FirstInitial(LegacyTarget(records, key, first)) == FirstInitial(records)
    ensures LegacyTarget(LegacyTarget(records, key, first), key, second)
            == LegacyTarget(records, key, second)
            <==> CountInitial(records) == 1 || first == "" || second != ""
  {
    var i := FirstInitial(records);
    var twice := LegacyTarget(LegacyTarget(records, key, first), key, second);
    if i < |records| {
      assert twice == records[i := SetHalf(records[i], key, second)];
    } else if first != "" && second != "" {
      assert twice == records + [SetHalf(NEW_FIRST_INSTANCE, key, second)];
    } else if first != "" {
      assert |twice| == |records| + 1;
    }
  }
}
