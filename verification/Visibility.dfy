/**
 Material visibility (materials/visibility.py) and the hooks that keep it up to date
 (cases/api_views.py, cases/signals.py, case_proposals/apply.py): the MAX over the states of
 the citing cases, maintained by recomputing what each committed write may have changed.

 A commit and the scheduling of its recomputes are one step; a recompute is three: read the
 material, read the states of the citing cases, write.
 */
module Visibility {
  import opened Common
  import opened Cases
  import Laws = CaseLaws

  datatype Tier = Private | Unlisted | Listed

  datatype Policy = PublicPolicy | PrivatePolicy | CaseGated | UnknownPolicy

  datatype Material = Material(policy: Policy, visibility: Tier)

  /** What a case contributes: its state and the materials it cites. */
  datatype Citing = Citing(state: State, iris: seq<string>)

  // ----- the MAX over states -----

  function Rank(v: Tier): nat {
    match v case Private => 0 case Unlisted => 1 case Listed => 2
  }

  function Conferred(state: State): Tier {
    match state
    case Published => Listed
    case InReview => Unlisted
    case Draft => Private
    case Closed => Private
  }

  /** `v` is the greatest tier a state of `states` confers, PRIVATE at least. */
  predicate IsMax(states: set<State>, v: Tier) {
    && (v == Private || exists s | s in states :: Conferred(s) == v)
    && forall s | s in states :: Rank(Conferred(s)) <= Rank(v)
  }

  function Max(states: set<State>): (v: Tier)
    ensures IsMax(states, v)
  {
    if Published in states then Listed else if InReview in states then Unlisted else Private
  }

  lemma MaxIsUnique(states: set<State>, v: Tier)
    requires IsMax(states, v)
    ensures v == Max(states)
  {
    assert IsMax(states, Max(states));
  }

  /** `visibility_for_states`: one pass, left early once nothing can be greater. */
  method VisibilityForStates(states: seq<State>) returns (best: Tier)
    ensures best == Max(set s | s in states)
  {
    best := Private;
    for i := 0 to |states|
      invariant best == Max(set s | s in states[..i])
    {
      assert states[..i + 1] == states[..i] + [states[i]];
      var conferred := Conferred(states[i]);
      if Rank(conferred) > Rank(best) {
        best := conferred;
        if best == Listed {
          assert states[i] in states;
          return;
        }
      }
    }
    assert states[..|states|] == states;
  }

  // ----- the stores -----

  /** One recompute under way: the tier it saw, and what it computed once it read the states. */
  datatype Recompute = Recompute(iri: string, seen: Tier, computed: Option<Tier>)

  /** `cases`: by primary key, None once hard-deleted. `materials`: the live ones. */
  datatype World = World(
    cases: seq<Option<Citing>>,
    materials: map<string, Material>,
    pending: set<string>,
    running: seq<Recompute>)

  predicate RefersTo(c: Option<Citing>, iri: string) {
    c.Some? && iri in c.value.iris
  }

  /** `_referring_case_states`. */
  function StatesCiting(cases: seq<Option<Citing>>, iri: string): set<State> {
    set i | 0 <= i < |cases| && RefersTo(cases[i], iri) :: cases[i].value.state
  }

  /** `visibility_for_policy`. */
  function Target(cases: seq<Option<Citing>>, policy: Policy, iri: string): Tier {
    match policy
    case PublicPolicy => Listed
    case PrivatePolicy => Private
    case CaseGated => Max(StatesCiting(cases, iri))
    case UnknownPolicy => Max(StatesCiting(cases, iri))
  }

  /** The full recompute: every material at the tier its policy and its citing cases give it. */
  function RecomputedAll(cases: seq<Option<Citing>>, materials: map<string, Material>): map<string, Material> {
    map iri | iri in materials ::
      materials[iri].(visibility := Target(cases, materials[iri].policy, iri))
  }

  /** The materials that are not at their tier. */
  function Displaced(cases: seq<Option<Citing>>, materials: map<string, Material>): set<string> {
    set iri | iri in materials && materials[iri].visibility != Target(cases, materials[iri].policy, iri)
  }

  /** One whole recompute with nothing else running; a material that is not there is left alone. */
  function Recomputed(cases: seq<Option<Citing>>, materials: map<string, Material>, iri: string)
    : map<string, Material>
  {
    if iri !in materials then materials
    else materials[iri := materials[iri].(visibility := Target(cases, materials[iri].policy, iri))]
  }

  function RecomputedEach(cases: seq<Option<Citing>>, materials: map<string, Material>, iris: seq<string>)
    : map<string, Material>
  {
    if iris == [] then materials
    else Recomputed(cases, RecomputedEach(cases, materials, iris[..|iris| - 1]), iris[|iris| - 1])
  }

  class VisibilityStore {
    var cases: seq<Option<Citing>>
    var materials: map<string, Material>

    constructor (cases: seq<Option<Citing>>, materials: map<string, Material>)
      ensures this.cases == cases && this.materials == materials
    {
      this.cases, this.materials := cases, materials;
    }

    method ReferringCaseStates(iri: string) returns (states: seq<State>)
      ensures (set s | s in states) == StatesCiting(cases, iri)
    {
      states := [];
      for i := 0 to |cases|
        invariant forall s :: s in states <==> s in StatesCiting(cases[..i], iri)
      {
        StatesSnoc(cases, i, iri);
        if RefersTo(cases[i], iri) {
          states := states + [cases[i].value.state];
        }
      }
      assert cases[..|cases|] == cases;
    }

    method VisibilityForPolicy(policy: Policy, iri: string) returns (v: Tier)
      ensures v == Target(cases, policy, iri)
    {
      if policy == PublicPolicy {
        return Listed;
      }
      if policy == PrivatePolicy {
        return Private;
      }
      var states := ReferringCaseStates(iri);
      v := VisibilityForStates(states);
    }

    /** `recompute_material_visibility`: written only when it changed. */
    method RecomputeMaterial(iri: string)
      modifies this`materials
      ensures materials == Recomputed(cases, old(materials), iri)
    {
      if iri !in materials {
        return;
      }
      var material := materials[iri];
      var visibility := VisibilityForPolicy(material.policy, iri);
      if material.visibility != visibility {
        materials := materials[iri := material.(visibility := visibility)];
      } else {
        assert materials[iri := material.(visibility := visibility)] == materials;
      }
    }

    /** The callback of `_recompute_material_visibility` and of `_recompute_evidence_iris`. */
    method RecomputeEach(iris: seq<string>)
      modifies this`materials
      ensures materials == RecomputedEach(cases, old(materials), iris)
    {
      ghost var before := materials;
      for i := 0 to |iris|
        invariant materials == RecomputedEach(cases, before, iris[..i])
      {
        assert iris[..i + 1][..i] == iris[..i];
        RecomputeMaterial(iris[i]);
      }
      assert iris[..|iris|] == iris;
    }

    /** `recompute_all`: the reconciler, material by material; it counts those it changed. */
    method RecomputeAll() returns (changed: nat)
      modifies this`materials
      ensures materials == RecomputedAll(cases, old(materials))
      ensures changed == |Displaced(cases, old(materials))|
    {
      ghost var before := materials;
      changed := 0;
      var todo := materials.Keys;
      while todo != {}
        invariant todo <= before.Keys
        invariant materials == PartlyRecomputed(cases, before, todo)
        invariant changed == |Displaced(cases, before) - todo|
        decreases todo
      {
        var iri :| iri in todo;
        OneMoreRecomputed(cases, before, todo, iri);
        var visibility := VisibilityForPolicy(materials[iri].policy, iri);
        if materials[iri].visibility != visibility {
          materials := materials[iri := materials[iri].(visibility := visibility)];
          changed := changed + 1;
        }
        todo := todo - {iri};
      }
    }
  }

  /** The table while `todo` is still to be recomputed. */
  function PartlyRecomputed(cases: seq<Option<Citing>>, before: map<string, Material>, todo: set<string>)
    : map<string, Material>
  {
    map iri | iri in before :: if iri in todo then before[iri] else RecomputedAll(cases, before)[iri]
  }

  lemma OneMoreRecomputed(cases: seq<Option<Citing>>, before: map<string, Material>, todo: set<string>, iri: string)
    requires iri in todo && todo <= before.Keys
    ensures var now, next := PartlyRecomputed(cases, before, todo), PartlyRecomputed(cases, before, todo - {iri});
            var target := Target(cases, before[iri].policy, iri);
            && now[iri] == before[iri]
            && next == now[iri := now[iri].(visibility := target)]
            && (before[iri].visibility == target ==> next == now)
            && |Displaced(cases, before) - (todo - {iri})|
               == |Displaced(cases, before) - todo| + if before[iri].visibility != target then 1 else 0
  {
    var now, next := PartlyRecomputed(cases, before, todo), PartlyRecomputed(cases, before, todo - {iri});
    var written := now[iri := now[iri].(visibility := Target(cases, before[iri].policy, iri))];
    assert next.Keys == written.Keys;
    assert next == written;
    var wrong := Displaced(cases, before);
    if iri in wrong {
      assert wrong - (todo - {iri}) == wrong - todo + {iri};
    } else {
      assert wrong - (todo - {iri}) == wrong - todo;
    }
  }

  lemma StatesSnoc(cases: seq<Option<Citing>>, i: nat, iri: string)
    requires i < |cases|
    ensures StatesCiting(cases[..i + 1], iri)
            == StatesCiting(cases[..i], iri) + if RefersTo(cases[i], iri) then {cases[i].value.state} else {}
  {
    var longer := cases[..i + 1];
    forall s | s in StatesCiting(cases[..i], iri)
      ensures s in StatesCiting(longer, iri)
    {
      var k :| 0 <= k < i && RefersTo(cases[..i][k], iri) && cases[..i][k].value.state == s;
      assert RefersTo(longer[k], iri) && longer[k].value.state == s;
    }
    if RefersTo(cases[i], iri) {
      assert RefersTo(longer[i], iri) && longer[i].value.state == cases[i].value.state;
    }
    forall s | s in StatesCiting(longer, iri)
      ensures s in StatesCiting(cases[..i], iri) || (RefersTo(cases[i], iri) && s == cases[i].value.state)
    {
      var k :| 0 <= k < i + 1 && RefersTo(longer[k], iri) && longer[k].value.state == s;
      if k < i {
        assert RefersTo(cases[..i][k], iri) && cases[..i][k].value.state == s;
      }
    }
  }

  // ----- the steps -----

  datatype Write =
    | Create(iris: seq<string>)
    /** `evidence` None: no op touches it. `state` None: the document carries none. */
    | Patch(id: nat, state: Option<State>, evidence: Option<seq<string>>)
    /** A model save from anywhere: the soft delete, the admin, a command. */
    | ModelSave(id: nat, to: State)
    | HardDelete(id: nat)
    | LinkMaterial(id: nat, iri: string)

  datatype Action = Commit(write: Write) | Begin(iri: string) | ReadStates(task: nat) | Finish(task: nat)

  function SetOf(s: seq<string>): set<string> {
    set x | x in s
  }

  /** The cases after a write, and the materials it schedules a recompute for. */
  function Written(cases: seq<Option<Citing>>, w: Write): (seq<Option<Citing>>, set<string>) {
    match w
    case Create(iris) => (cases + [Some(Citing(Draft, iris))], SetOf(iris))
    case Patch(id, state, evidence) =>
      if id >= |cases| || cases[id].None? then (cases, {})
      else
        var before := cases[id].value;
        var after := Citing(Keep(state, before.state), Keep(evidence, before.iris));
        var touched := if evidence.Some? then SetOf(before.iris) + SetOf(after.iris) else {};
        (cases[id := Some(after)],
         if evidence.Some? || state.Some? then touched + SetOf(after.iris) else {})
    case ModelSave(id, state) =>
      if id >= |cases| || cases[id].None? then (cases, {})
      else (cases[id := Some(cases[id].value.(state := state))], SetOf(cases[id].value.iris))
    case HardDelete(id) =>
      if id >= |cases| || cases[id].None? then (cases, {})
      else (cases[id := None], SetOf(cases[id].value.iris))
    case LinkMaterial(id, iri) =>
      if id >= |cases| || cases[id].None? || iri in cases[id].value.iris then (cases, {})
      else (cases[id := Some(cases[id].value.(iris := cases[id].value.iris + [iri]))], {iri})
  }

  function Without<T>(s: seq<T>, k: nat): seq<T>
    requires k < |s|
  {
    s[..k] + s[k + 1..]
  }

  predicate InFlight(running: seq<Recompute>, iri: string) {
    exists k | 0 <= k < |running| :: running[k].iri == iri
  }

  /** Any material may begin: each commit queues its own callback, so one may be recomputed again. */
  function Step(w: World, a: Action): World {
    match a
    case Commit(write) =>
      var (cases, affected) := Written(w.cases, write);
      w.(cases := cases, pending := w.pending + affected)
    case Begin(iri) =>
      if iri !in w.materials then w.(pending := w.pending - {iri})
      else w.(pending := w.pending - {iri},
              running := w.running + [Recompute(iri, w.materials[iri].visibility, None)])
    case ReadStates(task) =>
      if task >= |w.running| || w.running[task].computed.Some? || w.running[task].iri !in w.materials then w
      else
        var iri := w.running[task].iri;
        w.(running := w.running[task := w.running[task].(
             computed := Some(Target(w.cases, w.materials[iri].policy, iri)))])
    case Finish(task) =>
      if task >= |w.running| || w.running[task].computed.None? || w.running[task].iri !in w.materials then w
      else
        var (iri, computed) := (w.running[task].iri, w.running[task].computed.value);
        w.(running := Without(w.running, task),
           materials := if computed == w.running[task].seen then w.materials
                        else w.materials[iri := w.materials[iri].(visibility := computed)])
  }

  function Play(w: World, actions: seq<Action>): World {
    if actions == [] then w else Step(Play(w, actions[..|actions| - 1]), actions[|actions| - 1])
  }

  // ----- the invariant -----

  predicate UpToDate(w: World, iri: string)
    requires iri in w.materials
  {
    w.materials[iri].visibility == Target(w.cases, w.materials[iri].policy, iri)
  }

  predicate Known(w: World) {
    forall k | 0 <= k < |w.running| :: w.running[k].iri in w.materials
  }

  function TargetOf(w: World, t: Recompute): Tier
    requires t.iri in w.materials
  {
    Target(w.cases, w.materials[t.iri].policy, t.iri)
  }

  /** All it can still write is the current tier: it has yet to read, or read that, or writes nothing. */
  predicate Harmless(w: World, t: Recompute)
    requires t.iri in w.materials
  {
    t.computed == None || t.computed.value == TargetOf(w, t) || t.computed.value == t.seen
  }

  /** It will write the current tier. */
  predicate WillWrite(w: World, t: Recompute)
    requires t.iri in w.materials
  {
    t.seen != TargetOf(w, t) && (t.computed == None || t.computed.value == TargetOf(w, t))
  }

  predicate AllHarmless(w: World, iri: string)
    requires Known(w)
  {
    forall k | 0 <= k < |w.running| && w.running[k].iri == iri :: Harmless(w, w.running[k])
  }

  predicate Attended(w: World, iri: string)
    requires Known(w)
  {
    exists k | 0 <= k < |w.running| :: w.running[k].iri == iri && WillWrite(w, w.running[k])
  }

  /** A material is pending; or nothing under way can spoil it, and it is up to date or will be. */
  predicate SafeAt(w: World, iri: string)
    requires Known(w) && iri in w.materials
  {
    iri in w.pending || (AllHarmless(w, iri) && (UpToDate(w, iri) || Attended(w, iri)))
  }

  predicate Safe(w: World) {
    Known(w) && forall iri | iri in w.materials :: SafeAt(w, iri)
  }

  /** The start of a recompute that matters: of a pending material that is there. */
  predicate Starts(w: World, a: Action) {
    a.Begin? && a.iri in w.pending && a.iri in w.materials
  }

  /** Every recompute starts while those of its material under way are harmless. */
  predicate SafeBegins(w: World, actions: seq<Action>) {
    forall k | 0 <= k < |actions| && Starts(Play(w, actions[..k]), actions[k]) ::
      Known(Play(w, actions[..k])) && AllHarmless(Play(w, actions[..k]), actions[k].iri)
  }

  /** What a write does to the cases, one by one. */
  lemma WrittenExactly(cases: seq<Option<Citing>>, w: Write)
    ensures var after := Written(cases, w).0;
            && |after| == |cases| + (if w.Create? then 1 else 0)
            && (w.Create? ==> after[|cases|] == Some(Citing(Draft, w.iris)))
            && forall i | 0 <= i < |cases| ::
                 after[i] == if w.Create? || w.id != i || cases[i] == None then cases[i]
                             else match w
                               case HardDelete(_) => None
                               case ModelSave(_, to) => Some(Citing(to, cases[i].value.iris))
                               case Patch(_, state, evidence) =>
                                 Some(Citing(if state.Some? then state.value else cases[i].value.state,
                                             if evidence.Some? then evidence.value else cases[i].value.iris))
                               case LinkMaterial(_, iri) =>
                                 Some(Citing(cases[i].value.state,
                                             if iri in cases[i].value.iris then cases[i].value.iris
                                             else cases[i].value.iris + [iri]))
                               case Create(_) => cases[i]
  {
  }

  /**
   Which materials a write schedules: what a created, saved or deleted case cites; what a PATCH
   that carries a state cites after it, and before it too when it targets the evidence; a newly
   linked material.
   */
  lemma ScheduledExactly(cases: seq<Option<Citing>>, w: Write, iri: string)
    ensures iri in Written(cases, w).1
            <==> if w.Create? then iri in w.iris
                 else
                   && w.id < |cases| && cases[w.id].Some?
                   && match w
                      case ModelSave(_, _) => iri in cases[w.id].value.iris
                      case HardDelete(_) => iri in cases[w.id].value.iris
                      case LinkMaterial(_, linked) => iri == linked && iri !in cases[w.id].value.iris
                      case Patch(_, state, evidence) =>
                        || (evidence.Some? && (iri in cases[w.id].value.iris || iri in evidence.value))
                        || (evidence == None && state.Some? && iri in cases[w.id].value.iris)
                      case Create(_) => false
  {
  }

  /** A material a write does not schedule keeps the states of its citing cases. */
  lemma UnscheduledIsUnaffected(cases: seq<Option<Citing>>, write: Write, iri: string)
    requires iri !in Written(cases, write).1
    ensures Max(StatesCiting(Written(cases, write).0, iri)) == Max(StatesCiting(cases, iri))
  {
    var after := Written(cases, write).0;
    forall s | s in StatesCiting(cases, iri)
      ensures s in StatesCiting(after, iri)
    {
      var i :| 0 <= i < |cases| && RefersTo(cases[i], iri) && cases[i].value.state == s;
      assert RefersTo(after[i], iri) && after[i].value.state == s;
    }
    forall s | s in StatesCiting(after, iri)
      ensures s in StatesCiting(cases, iri)
    {
      var i :| 0 <= i < |after| && RefersTo(after[i], iri) && after[i].value.state == s;
      assert i < |cases| && RefersTo(cases[i], iri) && cases[i].value.state == s;
    }
    assert StatesCiting(after, iri) == StatesCiting(cases, iri);
  }

  lemma CommitKeeps(w: World, write: Write)
    requires Safe(w)
    ensures Safe(Step(w, Commit(write)))
  {
    var next := Step(w, Commit(write));
    forall iri | iri in next.materials
      ensures SafeAt(next, iri)
    {
      assert SafeAt(w, iri);
      if iri !in next.pending {
        UnscheduledIsUnaffected(w.cases, write, iri);
        SameTargetStaysSafe(w, next, iri);
      }
    }
  }

  lemma SameTargetStaysSafe(w: World, next: World, iri: string)
    requires Known(w) && Known(next) && next.running == w.running && next.materials == w.materials
    requires iri in w.materials && SafeAt(w, iri) && iri !in w.pending
    requires Target(next.cases, w.materials[iri].policy, iri) == Target(w.cases, w.materials[iri].policy, iri)
    ensures SafeAt(next, iri)
  {
    if Attended(w, iri) {
      var k :| 0 <= k < |w.running| && w.running[k].iri == iri && WillWrite(w, w.running[k]);
      assert WillWrite(next, next.running[k]);
    }
  }

  /** Starting a recompute is safe exactly when those of the material under way are harmless. */
  lemma BeginIsSafeExactlyWhen(w: World, iri: string)
    requires Safe(w) && iri in w.materials
    ensures Safe(Step(w, Begin(iri))) <==> AllHarmless(w, iri)
    ensures iri !in w.pending ==> AllHarmless(w, iri)
  {
    var next := Step(w, Begin(iri));
    var n := |w.running|;
    forall m | m in w.materials && m != iri
      ensures SafeAt(next, m)
    {
      assert SafeAt(w, m);
      if m !in w.pending && Attended(w, m) {
        var k :| 0 <= k < n && w.running[k].iri == m && WillWrite(w, w.running[k]);
        assert WillWrite(next, next.running[k]);
      }
    }
    if AllHarmless(w, iri) {
      assert next.running[n].iri == iri;
      assert UpToDate(next, iri) || WillWrite(next, next.running[n]);
      assert SafeAt(next, iri);
    } else {
      var k :| 0 <= k < n && w.running[k].iri == iri && !Harmless(w, w.running[k]);
      assert next.running[k] == w.running[k] && !Harmless(next, next.running[k]);
      assert !SafeAt(next, iri);
    }
  }

  lemma ReadStatesKeeps(w: World, task: nat)
    requires Safe(w)
    ensures Safe(Step(w, ReadStates(task)))
  {
    var next := Step(w, ReadStates(task));
    forall iri | iri in next.materials
      ensures SafeAt(next, iri)
    {
      assert SafeAt(w, iri);
      if iri !in w.pending && Attended(w, iri) {
        var k :| 0 <= k < |w.running| && w.running[k].iri == iri && WillWrite(w, w.running[k]);
        assert WillWrite(next, next.running[k]);
      }
    }
  }

  /** The place of task k once task `gone` is taken out. */
  function Shifted(k: nat, gone: nat): nat
    requires k != gone
  {
    if k < gone then k else k - 1
  }

  lemma FinishKeepsOthers(w: World, task: nat, iri: string)
    requires Safe(w) && task < |w.running| && w.running[task].computed.Some?
    requires iri in w.materials && iri != w.running[task].iri
    ensures Known(Step(w, Finish(task))) && SafeAt(Step(w, Finish(task)), iri)
  {
    var next := Step(w, Finish(task));
    assert SafeAt(w, iri);
    assert next.materials[iri] == w.materials[iri];
    assert forall k | 0 <= k < |next.running| :: next.running[k] == w.running[if k < task then k else k + 1];
    if iri !in w.pending && Attended(w, iri) {
      var k :| 0 <= k < |w.running| && w.running[k].iri == iri && WillWrite(w, w.running[k]);
      assert next.running[Shifted(k, task)] == w.running[k] && WillWrite(next, next.running[Shifted(k, task)]);
    }
  }

  lemma FinishKeepsOwn(w: World, task: nat)
    requires Safe(w) && task < |w.running| && w.running[task].computed.Some?
    ensures Known(Step(w, Finish(task))) && SafeAt(Step(w, Finish(task)), w.running[task].iri)
  {
    var next, t := Step(w, Finish(task)), w.running[task];
    var iri := t.iri;
    assert SafeAt(w, iri);
    assert forall k | 0 <= k < |next.running| :: next.running[k] == w.running[if k < task then k else k + 1];
    assert TargetOf(next, t) == TargetOf(w, t);
    if iri !in w.pending {
      assert Harmless(w, t);
      if t.computed.value != t.seen {
        assert UpToDate(next, iri);
      } else if !UpToDate(w, iri) {
        var k :| 0 <= k < |w.running| && w.running[k].iri == iri && WillWrite(w, w.running[k]);
        assert k != task;
        assert WillWrite(next, next.running[Shifted(k, task)]);
      }
    }
  }

  lemma FinishKeeps(w: World, task: nat)
    requires Safe(w)
    ensures Safe(Step(w, Finish(task)))
  {
    var next := Step(w, Finish(task));
    if task < |w.running| && w.running[task].computed.Some? {
      FinishKeepsOwn(w, task);
      forall iri | iri in next.materials
        ensures SafeAt(next, iri)
      {
        if iri != w.running[task].iri {
          FinishKeepsOthers(w, task, iri);
        }
      }
    }
  }

  lemma IdleBeginKeeps(w: World, iri: string)
    requires Safe(w) && iri !in w.materials
    ensures Safe(Step(w, Begin(iri)))
  {
    var next := Step(w, Begin(iri));
    forall m | m in next.materials
      ensures SafeAt(next, m)
    {
      assert SafeAt(w, m);
      if m !in w.pending && Attended(w, m) {
        var k :| 0 <= k < |w.running| && w.running[k].iri == m && WillWrite(w, w.running[k]);
        assert WillWrite(next, next.running[k]);
      }
    }
  }

  /**
   At every point of every run whose recomputes start safely, each material is at the MAX its
   citing cases give it, or is about to be recomputed, or a recompute under way will put it there.
   */
  lemma {:induction false} VisibilityIsMaxOrPending(w: World, actions: seq<Action>)
    requires Safe(w) && SafeBegins(w, actions)
    ensures Safe(Play(w, actions))
  {
    if actions != [] {
      var n := |actions| - 1;
      var front := actions[..n];
      assert SafeBegins(w, front) by {
        assert forall k | 0 <= k < n :: front[..k] == actions[..k] && front[k] == actions[k];
      }
      VisibilityIsMaxOrPending(w, front);
      match actions[n]
      case Commit(write) => CommitKeeps(Play(w, front), write);
      case Begin(iri) =>
        if iri in Play(w, front).materials {
          assert Starts(Play(w, front), Begin(iri)) ==> Starts(Play(w, actions[..n]), actions[n]);
          BeginIsSafeExactlyWhen(Play(w, front), iri);
        } else {
          IdleBeginKeeps(Play(w, front), iri);
        }
      case ReadStates(task) => ReadStatesKeeps(Play(w, front), task);
      case Finish(task) => FinishKeeps(Play(w, front), task);
    }
  }

  lemma {:induction false} KnownStays(w: World, actions: seq<Action>)
    requires Known(w)
    ensures Known(Play(w, actions))
  {
    if actions != [] {
      KnownStays(w, actions[..|actions| - 1]);
    }
  }

  /** Where nothing overlaps, every recompute starts safely. */
  lemma NoOverlapIsSafe(w: World, actions: seq<Action>)
    requires Known(w)
    requires forall k | 0 <= k < |actions| && actions[k].Begin? ::
               !InFlight(Play(w, actions[..k]).running, actions[k].iri)
    ensures SafeBegins(w, actions)
  {
    forall k | 0 <= k < |actions|
      ensures Known(Play(w, actions[..k]))
    {
      KnownStays(w, actions[..k]);
    }
  }

  lemma {:induction false} RecomputedEachAt(
    cases: seq<Option<Citing>>, materials: map<string, Material>, iris: seq<string>)
    ensures var after := RecomputedEach(cases, materials, iris);
            && after.Keys == materials.Keys
            && forall iri | iri in materials ::
                 after[iri] == if iri in iris
                               then materials[iri].(visibility := Target(cases, materials[iri].policy, iri))
                               else materials[iri]
  {
    if iris != [] {
      RecomputedEachAt(cases, materials, iris[..|iris| - 1]);
      assert forall iri :: iri in iris <==> iri in iris[..|iris| - 1] || iri == iris[|iris| - 1];
    }
  }

  /** With nothing under way, recomputing the pending set in any order is the full recompute. */
  lemma DrainingIsTheFullRecompute(w: World, order: seq<string>)
    requires Safe(w) && w.running == [] && forall iri | iri in w.pending :: iri in order
    ensures RecomputedEach(w.cases, w.materials, order) == RecomputedAll(w.cases, w.materials)
  {
    RecomputedEachAt(w.cases, w.materials, order);
    var drained, all := RecomputedEach(w.cases, w.materials, order), RecomputedAll(w.cases, w.materials);
    forall iri | iri in w.materials
      ensures drained[iri] == all[iri]
    {
      assert SafeAt(w, iri);
      assert UpToDate(w, iri) || iri in order;
    }
    assert drained.Keys == all.Keys;
  }

  // ----- the tier a material ends with -----

  predicate CitedBy(cases: seq<Option<Citing>>, iri: string, state: State) {
    exists i | 0 <= i < |cases| :: cases[i].Some? && iri in cases[i].value.iris && cases[i].value.state == state
  }

  /**
   A fixed policy gives its tier whatever cites the material. Any other: LISTED exactly when a
   published case cites it, UNLISTED exactly when one in review does and no published one,
   PRIVATE otherwise; drafts and closed cases count for nothing.
   */
  predicate RightTier(cases: seq<Option<Citing>>, material: Material, iri: string) {
    match material.policy
    case PrivatePolicy => material.visibility == Private
    case PublicPolicy => material.visibility == Listed
    case _ =>
      && (material.visibility == Listed <==> CitedBy(cases, iri, Published))
      && (material.visibility == Unlisted <==> CitedBy(cases, iri, InReview) && !CitedBy(cases, iri, Published))
  }

  lemma CitersDecide(cases: seq<Option<Citing>>, iri: string, state: State)
    ensures state in StatesCiting(cases, iri) <==> CitedBy(cases, iri, state)
  {
    if CitedBy(cases, iri, state) {
      var i :| 0 <= i < |cases| && cases[i].Some? && iri in cases[i].value.iris && cases[i].value.state == state;
      assert RefersTo(cases[i], iri);
    }
  }

  /** A material is at its target exactly when its tier is the right one. */
  lemma TargetIsRight(cases: seq<Option<Citing>>, material: Material, iri: string)
    ensures material.visibility == Target(cases, material.policy, iri) <==> RightTier(cases, material, iri)
  {
    var states := StatesCiting(cases, iri);
    CitersDecide(cases, iri, Published);
    CitersDecide(cases, iri, InReview);
    assert IsMax(states, Max(states));
    assert Published in states ==> Rank(Conferred(Published)) <= Rank(Max(states));
    assert InReview in states ==> Rank(Conferred(InReview)) <= Rank(Max(states));
  }

  /** What the reconciler leaves. */
  lemma RecomputedAllIsRight(cases: seq<Option<Citing>>, materials: map<string, Material>)
    ensures var after := RecomputedAll(cases, materials);
            && after.Keys == materials.Keys
            && forall iri | iri in after ::
                 RightTier(cases, after[iri], iri) && after[iri].policy == materials[iri].policy
  {
    var after := RecomputedAll(cases, materials);
    forall iri | iri in after
      ensures RightTier(cases, after[iri], iri)
    {
      TargetIsRight(cases, after[iri], iri);
    }
  }

  /** What any run of safe starts leaves once nothing is pending or under way. */
  lemma RestingTiersAreRight(w: World, actions: seq<Action>)
    requires Safe(w) && SafeBegins(w, actions)
    requires Play(w, actions).pending == {} && Play(w, actions).running == []
    ensures var end := Play(w, actions);
            forall iri | iri in end.materials :: RightTier(end.cases, end.materials[iri], iri)
  {
    VisibilityIsMaxOrPending(w, actions);
    var end := Play(w, actions);
    forall iri | iri in end.materials
      ensures RightTier(end.cases, end.materials[iri], iri)
    {
      assert SafeAt(end, iri);
      TargetIsRight(end.cases, end.materials[iri], iri);
    }
  }

  // ----- the writes of the case API -----

  function IrisOf(evidence: seq<Evidence>): (iris: seq<string>)
    ensures |iris| == |evidence| && forall i | 0 <= i < |iris| :: iris[i] == evidence[i].iri
  {
    seq(|evidence|, i requires 0 <= i < |evidence| => evidence[i].iri)
  }

  function CitingOf(c: Case): Citing {
    Citing(c.row.state, IrisOf(c.evidence))
  }

  /** The write of this module that a write of the case API is, seen from its materials. */
  function AsWrite(c: Case, a: Laws.Action): Write {
    match a
    case Patch(req) =>
      var doc := req.edit(Snapshot(c));
      if doc.None? then Patch(0, None, None)
      else Patch(0, doc.value.state,
                 if Touches(req.ops, "/evidence") then Some(IrisOf(RewrittenEvidence(doc.value.evidence))) else None)
    case Destroy => ModelSave(0, Closed)
    case Approve(intent) =>
      if intent.LinkMaterial? then Write.LinkMaterial(0, intent.material) else Patch(0, None, None)
    case Save(instance) => ModelSave(0, instance.row.state)
  }

  lemma RewrittenIris(c: Case, req: Request, doc: Doc)
    requires Committed(c, req, doc).Ok?
    ensures CitingOf(Committed(c, req, doc).value)
            == Citing(Keep(doc.state, c.row.state),
                      if Touches(req.ops, "/evidence") then IrisOf(RewrittenEvidence(doc.evidence))
                      else IrisOf(c.evidence))
  {
    Laws.WrittenShape(c, req, doc, RequestedStages(req, doc).value);
  }

  /** Every accepted PATCH, delete, approval and save changes what a case cites as its write here does. */
  lemma ApiWritesAreThese(c: Case, a: Laws.Action)
    requires Laws.Attempt(c, a).Ok?
    ensures Written([Some(CitingOf(c))], AsWrite(c, a)).0 == [Some(CitingOf(Laws.Attempt(c, a).value))]
  {
    match a
    case Patch(req) => RewrittenIris(c, req, req.edit(Snapshot(c)).value);
    case Destroy =>
    case Approve(intent) =>
      var after := Applied(c, intent).value;
      if intent.LinkMaterial? {
        assert IrisOf(after.evidence)
            == if Cases.Cites(c.evidence, intent.material) then IrisOf(c.evidence)
               else IrisOf(c.evidence) + [intent.material];
        assert Cases.Cites(c.evidence, intent.material) <==> intent.material in IrisOf(c.evidence);
      }
    case Save(_) =>
  }

  /** And so does a creation: it adds a draft citing the submitted evidence. */
  lemma CreationIsThisWrite(s: Creation)
    requires Created(s).Ok?
    ensures Written([], Create(IrisOf(RewrittenEvidence(s.evidence)))).0 == [Some(CitingOf(Created(s).value))]
  {
  }

  // ----- overlapping recomputes -----

  lemma PlaySnoc(w: World, actions: seq<Action>, a: Action)
    ensures Play(w, actions + [a]) == Step(Play(w, actions), a)
  {
    assert (actions + [a])[..|actions|] == actions;
  }

  lemma {:induction false} PlayConcat(w: World, a: seq<Action>, b: seq<Action>)
    ensures Play(w, a + b) == Play(Play(w, a), b)
  {
    if b == [] {
      assert a + b == a;
    } else {
      PlayConcat(w, a, b[..|b| - 1]);
      assert (a + b)[..|a + b| - 1] == a + b[..|b| - 1];
    }
  }

  lemma PlayTwo(w: World, first: Action, second: Action)
    ensures Play(w, [first, second]) == Step(Step(w, first), second)
  {
    PlaySnoc(w, [], first);
    PlaySnoc(w, [first], second);
    assert [] + [first] == [first] && [first] + [second] == [first, second];
  }

  /** The cases and the policies are as they were: every material has the target it had. */
  predicate SameTargets(w: World, end: World) {
    && end.cases == w.cases && end.materials.Keys == w.materials.Keys
    && forall iri | iri in w.materials :: end.materials[iri].policy == w.materials[iri].policy
  }

  /** One recompute under way reads if it has yet to, and finishes. */
  lemma FinishOne(w: World, j: nat)
    requires Known(w) && j < |w.running|
    ensures var next := Step(Step(w, ReadStates(j)), Finish(j));
            && Known(next) && SameTargets(w, next) && next.pending == w.pending
            && next.running == Without(w.running, j)
  {
    var read := Step(w, ReadStates(j));
    assert forall k | 0 <= k < |w.running| && k != j :: read.running[k] == w.running[k];
    assert Without(read.running, j) == Without(w.running, j);
    assert forall k | 0 <= k < |Without(w.running, j)| ::
        Without(w.running, j)[k] == w.running[if k < j then k else k + 1];
  }

  /** Every recompute under way but one can be finished. */
  lemma {:induction false} FinishTheOthers(w: World, kept: nat) returns (actions: seq<Action>)
    requires Known(w) && kept < |w.running|
    ensures var end := Play(w, actions);
            SameTargets(w, end) && end.pending == w.pending && end.running == [w.running[kept]]
    decreases |w.running|
  {
    actions := [];
    if |w.running| > 1 {
      var j := if kept == 0 then 1 else 0;
      FinishOne(w, j);
      var next := Step(Step(w, ReadStates(j)), Finish(j));
      var rest := FinishTheOthers(next, Shifted(kept, j));
      PlayTwo(w, ReadStates(j), Finish(j));
      PlayConcat(w, [ReadStates(j), Finish(j)], rest);
      actions := [ReadStates(j), Finish(j)] + rest;
    } else {
      assert w.running == [w.running[kept]];
    }
  }

  /** One pending material can be recomputed beside the recompute that is held up. */
  lemma RecomputeBeside(w: World, iri: string) returns (actions: seq<Action>)
    requires Known(w) && |w.running| == 1 && iri in w.pending
    ensures var end := Play(w, actions);
            SameTargets(w, end) && end.pending == w.pending - {iri} && end.running == w.running
  {
    var begun := Step(w, Begin(iri));
    PlaySnoc(w, [], Begin(iri));
    assert [] + [Begin(iri)] == [Begin(iri)];
    actions := [Begin(iri)];
    if iri in w.materials {
      assert begun.running[1].iri == iri;
      var read := Step(begun, ReadStates(1));
      assert read.running[0] == w.running[0] && read.running[1].computed.Some?;
      assert Without(read.running, 1) == w.running;
      PlayTwo(begun, ReadStates(1), Finish(1));
      PlayConcat(w, actions, [ReadStates(1), Finish(1)]);
      actions := actions + [ReadStates(1), Finish(1)];
    }
  }

  lemma {:induction false} DrainBeside(w: World) returns (actions: seq<Action>)
    requires Known(w) && |w.running| == 1
    ensures var end := Play(w, actions);
            SameTargets(w, end) && end.pending == {} && end.running == w.running
    decreases |w.pending|
  {
    actions := [];
    if w.pending != {} {
      var iri :| iri in w.pending;
      var first := RecomputeBeside(w, iri);
      var rest := DrainBeside(Play(w, first));
      PlayConcat(w, first, rest);
      actions := first + rest;
    }
  }

  /**
   A recompute that starts while a harmful one of its material is under way can always end
   badly: without another write, everything finishes, nothing is pending, and the material is
   not where its citing cases put it.
   */
  lemma UnsafeBeginCanEndStale(w: World, iri: string) returns (actions: seq<Action>)
    requires Safe(w) && iri in w.materials && !AllHarmless(w, iri)
    ensures var end := Play(Step(w, Begin(iri)), actions);
            && end.cases == w.cases && end.pending == {} && end.running == []
            && iri in end.materials && !UpToDate(end, iri)
  {
    var k :| 0 <= k < |w.running| && w.running[k].iri == iri && !Harmless(w, w.running[k]);
    var begun := Step(w, Begin(iri));
    assert begun.running[k] == w.running[k];
    var others := FinishTheOthers(begun, k);
    var alone := Play(begun, others);
    var drain := DrainBeside(alone);
    var held := Play(alone, drain);
    PlayConcat(begun, others, drain);
    PlaySnoc(begun, others + drain, Finish(0));
    actions := others + drain + [Finish(0)];
    assert held.running[0] == w.running[k];
    assert Without(held.running, 0) == [];
    assert TargetOf(held, held.running[0]) == TargetOf(w, w.running[k]);
  }

  /** One draft citing one material. */
  const ONE_CITED := World([Some(Citing(Draft, ["m"]))], map["m" := Material(CaseGated, Private)], {}, [])

  /** The case is published and the first recompute reads its state. */
  const PROMOTED: seq<Action> := [] + [Commit(ModelSave(0, Published))] + [Begin("m")] + [ReadStates(0)]

  /** The case goes back to draft; the second recompute overtakes the first. */
  const OVERTAKEN: seq<Action> :=
    PROMOTED + [Commit(ModelSave(0, Draft))] + [Begin("m")] + [ReadStates(1)] + [Finish(1)] + [Finish(0)]

  lemma StatesOfOne(state: State)
    ensures StatesCiting([Some(Citing(state, ["m"]))], "m") == {state}
  {
    assert RefersTo([Some(Citing(state, ["m"]))][0], "m");
  }

  lemma PromotedWorld()
    ensures Play(ONE_CITED, PROMOTED)
            == World([Some(Citing(Published, ["m"]))], ONE_CITED.materials, {},
                     [Recompute("m", Private, Some(Listed))])
  {
    StatesOfOne(Published);
    var published: seq<Action> := [] + [Commit(ModelSave(0, Published))];
    PlaySnoc(ONE_CITED, [], Commit(ModelSave(0, Published)));
    var cases := [Some(Citing(Published, ["m"]))];
    assert Play(ONE_CITED, published) == World(cases, ONE_CITED.materials, {"m"}, []);
    PlaySnoc(ONE_CITED, published, Begin("m"));
    assert Play(ONE_CITED, published + [Begin("m")])
        == World(cases, ONE_CITED.materials, {}, [Recompute("m", Private, None)]);
    PlaySnoc(ONE_CITED, published + [Begin("m")], ReadStates(0));
  }

  /**
   Two recomputes of one material: the first reads the states before the case leaves PUBLISHED
   and writes after the second has finished. The material of a draft stays LISTED, with
   nothing left to correct it.
   */
  lemma OverlappingRecomputesEndStale()
    ensures Safe(ONE_CITED)
    ensures Play(ONE_CITED, OVERTAKEN)
            == World([Some(Citing(Draft, ["m"]))], map["m" := Material(CaseGated, Listed)], {}, [])
    ensures Target([Some(Citing(Draft, ["m"]))], CaseGated, "m") == Private
    ensures !SafeBegins(ONE_CITED, OVERTAKEN)
  {
    StatesOfOne(Draft);
    PromotedWorld();
    var first := Recompute("m", Private, Some(Listed));
    var back := PROMOTED + [Commit(ModelSave(0, Draft))];
    PlaySnoc(ONE_CITED, PROMOTED, Commit(ModelSave(0, Draft)));
    assert Play(ONE_CITED, back) == World(ONE_CITED.cases, ONE_CITED.materials, {"m"}, [first]);
    PlaySnoc(ONE_CITED, back, Begin("m"));
    PlaySnoc(ONE_CITED, back + [Begin("m")], ReadStates(1));
    var both := back + [Begin("m")] + [ReadStates(1)];
    assert Play(ONE_CITED, both)
        == World(ONE_CITED.cases, ONE_CITED.materials, {}, [first, Recompute("m", Private, Some(Private))]);
    PlaySnoc(ONE_CITED, both, Finish(1));
    PlaySnoc(ONE_CITED, both + [Finish(1)], Finish(0));
    assert OVERTAKEN[..4] == back && OVERTAKEN[4] == Begin("m");
    assert Starts(Play(ONE_CITED, back), Begin("m"));
    assert !Harmless(Play(ONE_CITED, back), first);
    assert Play(ONE_CITED, back).running[0] == first;
  }
}
