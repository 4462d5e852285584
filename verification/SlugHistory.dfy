/**
 Live and retired slugs (cases/models.py, cases/api_views.py): which case a slug addresses,
 what each way of re-slugging records, and where a retired slug leads.
 */
module SlugHistory {
  import opened Common
  import opened Cases

  datatype Entry = Entry(slug: string, state: State)

  /** The case rows by primary key, and the retired slugs with the case each redirects to. */
  datatype Registry = Registry(cases: map<nat, Entry>, history: map<string, nat>)

  predicate Holds(r: Registry, id: nat, slug: string) {
    id in r.cases && r.cases[id].slug == slug
  }

  predicate Live(r: Registry, slug: string) {
    exists id | id in r.cases :: r.cases[id].slug == slug
  }

  /** The unique index would refuse `slug` for a row other than `id`. */
  predicate TakenByOther(r: Registry, id: nat, slug: string) {
    exists other | other in r.cases :: other != id && r.cases[other].slug == slug
  }

  // ----- each operation -----

  /** `CaseSlugHistory.record`. */
  function Recorded(history: map<string, nat>, id: nat, oldSlug: string, newSlug: string): map<string, nat> {
    if oldSlug == "" || oldSlug == newSlug then history
    else (history - if newSlug != "" then {newSlug} else {})[oldSlug := id]
  }

  /** The first save of a new case: no slug is retired, `record` is not called. */
  function Registered(r: Registry, id: nat, slug: string): Registry {
    if id in r.cases || slug == "" || Live(r, slug) then r
    else r.(cases := r.cases[id := Entry(slug, Draft)])
  }

  predicate SaveRefused(r: Registry, id: nat, original: string, slug: string, state: State) {
    || id !in r.cases || slug == ""
    || (original != "" && original != slug && state != Draft)
    || TakenByOther(r, id, slug)
  }

  /** `save` of an instance loaded when the slug was `original`: it writes its own slug and state. */
  function SavedRow(r: Registry, id: nat, original: string, slug: string, state: State): Registry {
    if SaveRefused(r, id, original, slug, state) then r
    else Registry(r.cases[id := Entry(slug, state)], Recorded(r.history, id, original, slug))
  }

  /** The selected rows that exist. */
  function Rows(r: Registry, ids: seq<nat>): set<nat> {
    set id | id in ids && id in r.cases
  }

  /** One slug for two rows, or for a row when another has it: the unique index refuses. */
  predicate BulkRefused(r: Registry, ids: seq<nat>, slug: string) {
    || (exists a, b | a in Rows(r, ids) && b in Rows(r, ids) :: a != b)
    || (exists a | a in Rows(r, ids) :: TakenByOther(r, a, slug))
  }

  /** `QuerySet.update(slug=...)`. */
  function BulkUpdated(r: Registry, ids: seq<nat>, slug: string): Registry {
    if BulkRefused(r, ids, slug) then r
    else Registry(
      map id | id in r.cases :: if id in ids then r.cases[id].(slug := slug) else r.cases[id],
      if exists id | id in Rows(r, ids) :: r.cases[id].slug != slug
      then (var id: nat :| id in Rows(r, ids) && r.cases[id].slug != slug;
            Recorded(r.history, id, r.cases[id].slug, slug))
      else r.history)
  }

  /** The answer to a lookup that found no live case. A blank slug has no address: the reply fails. */
  datatype Answer = NotFound | MovedTo(slug: string) | NoAddress

  function Redirected(r: Registry, requested: string, casework: bool): Answer {
    if requested == "" || requested !in r.history || r.history[requested] !in r.cases then Answer.NotFound
    else
      var target := r.cases[r.history[requested]];
      if target.state == Closed then Answer.NotFound
      else if target.state == Draft && !casework then Answer.NotFound
      else if target.slug == requested then Answer.NotFound
      else if target.slug == "" then NoAddress
      else MovedTo(target.slug)
  }

  // ----- the tables as the code updates them -----

  class SlugRegistry {
    var cases: map<nat, Entry>
    var history: map<string, nat>

    function Value(): Registry
      reads this
    {
      Registry(cases, history)
    }

    constructor ()
      ensures Value() == Registry(map[], map[])
    {
      cases, history := map[], map[];
    }

    /** `record`: drop the row the new slug would shadow, then upsert the old one. */
    method Record(id: nat, oldSlug: string, newSlug: string)
      modifies this`history
      ensures history == Recorded(old(history), id, oldSlug, newSlug)
    {
      if oldSlug == "" || oldSlug == newSlug {
        return;
      }
      if newSlug != "" {
        history := history - {newSlug};
      }
      history := history[oldSlug := id];
    }

    method Create(id: nat, slug: string)
      modifies this`cases
      ensures Value() == Registered(old(Value()), id, slug)
    {
      if id !in cases && slug != "" && !exists other | other in cases :: cases[other].slug == slug {
        cases := cases[id := Entry(slug, Draft)];
      }
    }

    method Save(id: nat, original: string, slug: string, state: State) returns (saved: bool)
      modifies this
      ensures saved <==> !SaveRefused(old(Value()), id, original, slug, state)
      ensures Value() == SavedRow(old(Value()), id, original, slug, state)
    {
      if id !in cases || slug == "" {
        return false;
      }
      if original != "" && original != slug && state != Draft {
        return false;
      }
      if exists other | other in cases :: other != id && cases[other].slug == slug {
        return false;
      }
      cases := cases[id := Entry(slug, state)];
      if original != "" && original != slug {
        Record(id, original, slug);
      }
      return true;
    }

    /** `update`: snapshot the rows that change, write, record each. */
    method BulkUpdate(ids: seq<nat>, slug: string) returns (updated: bool)
      requires Distinct(ids)
      modifies this
      ensures updated <==> !BulkRefused(old(Value()), ids, slug)
      ensures Value() == BulkUpdated(old(Value()), ids, slug)
    {
      ghost var before := Value();
      var changing: seq<(nat, string)> := [];
      for i := 0 to |ids|
        invariant Value() == before
        invariant forall k | 0 <= k < |changing| :: Changes(before, ids[..i], slug, changing[k])
        invariant forall j, k | 0 <= j < k < |changing| :: changing[j].0 != changing[k].0
        invariant forall k | 0 <= k < i && ids[k] in cases && cases[ids[k]].slug != slug ::
                    (ids[k], cases[ids[k]].slug) in changing
      {
        if ids[i] in cases && cases[ids[i]].slug != slug {
          assert ids[i] !in ids[..i];
          changing := changing + [(ids[i], cases[ids[i]].slug)];
        }
      }
      assert ids[..|ids|] == ids;
      if BulkRefused(Value(), ids, slug) {
        return false;
      }
      cases := map id | id in cases :: if id in ids then cases[id].(slug := slug) else cases[id];
      AtMostOneChanges(before, ids, slug, changing);
      for k := 0 to |changing|
        invariant cases == BulkUpdated(before, ids, slug).cases
        invariant history == if k == 0 then before.history
                             else Recorded(before.history, changing[0].0, changing[0].1, slug)
      {
        Record(changing[k].0, changing[k].1, slug);
      }
      return true;
    }

    /** `_slug_history_redirect`. */
    method Redirect(requested: string, casework: bool) returns (answer: Answer)
      ensures answer == Redirected(Value(), requested, casework)
    {
      if requested == "" || requested !in history || history[requested] !in cases {
        return Answer.NotFound;
      }
      var target := cases[history[requested]];
      if target.state == Closed {
        return Answer.NotFound;
      }
      if target.state == Draft && !casework {
        return Answer.NotFound;
      }
      if target.slug == requested {
        return Answer.NotFound;
      }
      return if target.slug == "" then NoAddress else MovedTo(target.slug);
    }
  }

  /** An existing selected row and the slug it is about to lose. */
  predicate Changes(r: Registry, ids: seq<nat>, slug: string, row: (nat, string)) {
    row.0 in ids && row.0 in r.cases && r.cases[row.0].slug == row.1 && row.1 != slug
  }

  lemma TwoRowsAreRefused(r: Registry, ids: seq<nat>, slug: string, a: nat, b: nat)
    requires a in ids && b in ids && a in r.cases && b in r.cases && a != b
    ensures BulkRefused(r, ids, slug)
  {
    assert a in Rows(r, ids) && b in Rows(r, ids);
  }

  lemma AtMostOneChanges(r: Registry, ids: seq<nat>, slug: string, changing: seq<(nat, string)>)
    requires !BulkRefused(r, ids, slug)
    requires forall k | 0 <= k < |changing| :: Changes(r, ids, slug, changing[k])
    requires forall j, k | 0 <= j < k < |changing| :: changing[j].0 != changing[k].0
    requires forall id | id in Rows(r, ids) && r.cases[id].slug != slug :: (id, r.cases[id].slug) in changing
    ensures |changing| <= 1
    ensures BulkUpdated(r, ids, slug).history
            == if changing == [] then r.history else Recorded(r.history, changing[0].0, changing[0].1, slug)
  {
    if |changing| > 1 {
      TwoRowsAreRefused(r, ids, slug, changing[0].0, changing[1].0);
    }
    if changing != [] {
      assert changing[0].0 in Rows(r, ids);
    }
  }

  // ----- runs -----

  datatype Action =
    | Create(id: nat, slug: string)
    | Save(id: nat, original: string, slug: string, state: State)
    | BulkUpdate(ids: seq<nat>, slug: string)

  function After(r: Registry, a: Action): Registry {
    match a
    case Create(id, slug) => Registered(r, id, slug)
    case Save(id, original, slug, state) => SavedRow(r, id, original, slug, state)
    case BulkUpdate(ids, slug) => BulkUpdated(r, ids, slug)
  }

  function Run(actions: seq<Action>): Registry {
    if actions == [] then Registry(map[], map[])
    else After(Run(actions[..|actions| - 1]), actions[|actions| - 1])
  }

  /**
   A refused action, or one that keeps the history exact. A creation takes a slug that is not
   retired. A save replaces the slug the instance was loaded with, or writes the slug the row has
   or fills a blank one, its loaded slug leading there already. A bulk update does not fill a
   blank slug with a retired one.
   */
  predicate Fresh(r: Registry, a: Action) {
    match a
    case Create(id, slug) => Registered(r, id, slug) == r || slug !in r.history
    case Save(id, original, slug, state) =>
      SaveRefused(r, id, original, slug, state) ||
      if original == "" || original == slug then slug !in r.history && r.cases[id].slug in {slug, ""}
      else
        || Holds(r, id, original)
        || (r.cases[id].slug in {slug, ""} && original in r.history && r.history[original] == id)
    case BulkUpdate(ids, slug) =>
      BulkRefused(r, ids, slug) || slug !in r.history || forall id | id in Rows(r, ids) :: r.cases[id].slug != ""
  }

  predicate FreshRun(actions: seq<Action>) {
    forall k | 0 <= k < |actions| :: Fresh(Run(actions[..k]), actions[k])
  }

  /** `id` holds the slug now, or was the last to hold it. */
  predicate LastHeldBy(actions: seq<Action>, slug: string, id: nat) {
    if Live(Run(actions), slug) then Holds(Run(actions), id, slug)
    else actions != [] && LastHeldBy(actions[..|actions| - 1], slug, id)
  }

  /** Live slugs are distinct, and every history row names a slug that is not live. */
  predicate Sound(r: Registry) {
    && (forall a, b | a in r.cases && b in r.cases && a != b :: r.cases[a].slug != r.cases[b].slug)
    && (forall id | id in r.cases :: r.cases[id].slug !in r.history)
    && (forall s | s in r.history :: s != "" && r.history[s] in r.cases)
  }

  /** What one action does to a slug that is not live afterwards. */
  predicate Retires(r: Registry, after: Registry, slug: string) {
    slug != "" && !Live(after, slug) ==>
      if Live(r, slug) then slug in after.history && Holds(r, after.history[slug], slug)
      else (slug in after.history <==> slug in r.history)
           && (slug in r.history ==> after.history[slug] == r.history[slug])
  }

  lemma CreateKeeps(r: Registry, id: nat, slug: string)
    requires Sound(r) && slug !in r.history
    ensures Sound(Registered(r, id, slug))
    ensures forall s :: Retires(r, Registered(r, id, slug), s)
  {
    var after := Registered(r, id, slug);
    forall s
      ensures Retires(r, after, s)
    {
      if Live(r, s) {
        var x :| x in r.cases && r.cases[x].slug == s;
        assert after.cases[x].slug == s;
      }
    }
  }

  lemma StillLive(before: map<nat, Entry>, after: map<nat, Entry>, id: nat, x: nat)
    requires x in before && id in after && after == before[id := after[id]]
    ensures x == id || (x in after && after[x].slug == before[x].slug)
  {
  }

  /** Every slug is retired as it should be, and the history stays off the live ones. */
  ghost predicate Exact(r: Registry, after: Registry) {
    Sound(after) && forall s :: Retires(r, after, s)
  }

  /** One row takes a slug no other row has; the slug it loses is recorded. */
  lemma ResluggedKeeps(r: Registry, id: nat, slug: string, state: State)
    requires Sound(r) && id in r.cases && !TakenByOther(r, id, slug)
    requires r.cases[id].slug == "" ==> slug !in r.history
    ensures Exact(r, Registry(r.cases[id := Entry(slug, state)],
                              Recorded(r.history, id, r.cases[id].slug, slug)))
  {
    var after := Registry(r.cases[id := Entry(slug, state)], Recorded(r.history, id, r.cases[id].slug, slug));
    assert after.cases[id].slug == slug;
    forall s
      ensures Retires(r, after, s)
    {
      if Live(r, s) && !Live(after, s) {
        var x :| x in r.cases && r.cases[x].slug == s;
        StillLive(r.cases, after.cases, id, x);
      }
    }
  }

  lemma BulkIsOneReslug(r: Registry, ids: seq<nat>, slug: string)
    requires Sound(r) && !BulkRefused(r, ids, slug)
    ensures Rows(r, ids) == {} ==> BulkUpdated(r, ids, slug) == r
    ensures forall id | id in Rows(r, ids) ::
              && !TakenByOther(r, id, slug)
              && BulkUpdated(r, ids, slug)
                 == Registry(r.cases[id := Entry(slug, r.cases[id].state)],
                             Recorded(r.history, id, r.cases[id].slug, slug))
  {
    var after := BulkUpdated(r, ids, slug);
    if Rows(r, ids) == {} {
      assert forall id | id in r.cases :: id !in Rows(r, ids);
      assert after.cases == r.cases;
    }
    forall id | id in Rows(r, ids)
      ensures after == Registry(r.cases[id := Entry(slug, r.cases[id].state)],
                                Recorded(r.history, id, r.cases[id].slug, slug))
    {
      assert forall x | x in r.cases && x != id :: x !in Rows(r, ids);
      assert after.cases == r.cases[id := Entry(slug, r.cases[id].state)];
      if r.cases[id].slug != slug {
        assert id in Rows(r, ids) && r.cases[id].slug != slug;
      }
    }
  }

  /** A blank slug that becomes a retired one leaves a live slug in the history. */
  lemma BulkIsExactIffFresh(r: Registry, ids: seq<nat>, slug: string)
    requires Sound(r) && !BulkRefused(r, ids, slug)
    ensures Exact(r, BulkUpdated(r, ids, slug)) <==> Fresh(r, BulkUpdate(ids, slug))
  {
    BulkIsOneReslug(r, ids, slug);
    if id :| id in Rows(r, ids) {
      var after := BulkUpdated(r, ids, slug);
      if r.cases[id].slug == "" && slug in r.history {
        assert after.cases[id].slug in after.history;
      } else {
        ResluggedKeeps(r, id, slug, r.cases[id].state);
      }
    }
  }

  /** Saving never makes two rows share a slug, and history rows keep naming cases. */
  lemma SavedShape(r: Registry, id: nat, original: string, slug: string, state: State)
    requires Sound(r) && !SaveRefused(r, id, original, slug, state)
    ensures var after := SavedRow(r, id, original, slug, state);
            && (forall a, b | a in after.cases && b in after.cases && a != b ::
                  after.cases[a].slug != after.cases[b].slug)
            && (forall s | s in after.history :: s != "" && after.history[s] in after.cases)
            && after.cases[id].slug == slug
            && (forall x | x in r.cases && x != id :: after.cases[x] == r.cases[x])
  {
  }

  lemma FreshSaveKeeps(r: Registry, id: nat, original: string, slug: string, state: State)
    requires Sound(r) && !SaveRefused(r, id, original, slug, state)
    requires Fresh(r, Save(id, original, slug, state))
    ensures Exact(r, SavedRow(r, id, original, slug, state))
  {
    var after := SavedRow(r, id, original, slug, state);
    SavedShape(r, id, original, slug, state);
    SaveIsSoundExactlyWhen(r, id, original, slug, state);
    forall s
      ensures Retires(r, after, s)
    {
      if Live(r, s) && !Live(after, s) {
        var x :| x in r.cases && r.cases[x].slug == s;
        StillLive(r.cases, after.cases, id, x);
      }
    }
  }

  /** A save keeps the history exact just when it is fresh. */
  lemma SaveIsExactIffFresh(r: Registry, id: nat, original: string, slug: string, state: State)
    requires Sound(r) && !SaveRefused(r, id, original, slug, state)
    ensures Exact(r, SavedRow(r, id, original, slug, state)) <==> Fresh(r, Save(id, original, slug, state))
  {
    var after := SavedRow(r, id, original, slug, state);
    SavedShape(r, id, original, slug, state);
    if Fresh(r, Save(id, original, slug, state)) {
      FreshSaveKeeps(r, id, original, slug, state);
    } else if Sound(after) {
      SaveIsSoundExactlyWhen(r, id, original, slug, state);
      var lost := r.cases[id].slug;
      if lost in {slug, ""} {
        assert after.history[original] == id && !Live(after, original);
        assert !Retires(r, after, original);
      } else {
        assert Live(r, lost) && !Live(after, lost);
        assert !Retires(r, after, lost);
      }
    }
  }

  /** The condition on the actions of a run is the exact one, action by action. */
  lemma FreshIsExact(r: Registry, a: Action)
    requires Sound(r)
    ensures Exact(r, After(r, a)) <==> Fresh(r, a)
  {
    match a
    case Create(id, slug) =>
      if Registered(r, id, slug) != r {
        CreationIsSoundExactlyWhenFresh(r, id, slug);
        if slug !in r.history {
          CreateKeeps(r, id, slug);
        }
      }
    case Save(id, original, slug, state) =>
      if !SaveRefused(r, id, original, slug, state) {
        SaveIsExactIffFresh(r, id, original, slug, state);
      }
    case BulkUpdate(ids, slug) =>
      if !BulkRefused(r, ids, slug) {
        BulkIsExactIffFresh(r, ids, slug);
      }
  }

  /**
   In every run of fresh creations, saves and bulk updates, one to the blank slug included: no
   history row names a live slug, and a slug that is not live is in the history exactly when
   some case held it once, pointing at the case that held it last.
   */
  lemma {:induction false} HistoryIsExact(actions: seq<Action>)
    requires FreshRun(actions)
    ensures Sound(Run(actions))
    ensures forall s: string, id: nat | s != "" && !Live(Run(actions), s) ::
              LastHeldBy(actions, s, id) <==> s in Run(actions).history && Run(actions).history[s] == id
  {
    if actions != [] {
      var n := |actions| - 1;
      var front := actions[..n];
      assert FreshRun(front) by {
        forall k | 0 <= k < n
          ensures Fresh(Run(front[..k]), front[k])
        {
          assert front[..k] == actions[..k];
        }
      }
      HistoryIsExact(front);
      var r, after := Run(front), Run(actions);
      FreshIsExact(r, actions[n]);
      forall s: string, id: nat | s != "" && !Live(after, s)
        ensures LastHeldBy(actions, s, id) <==> s in after.history && after.history[s] == id
      {
        assert Retires(r, after, s);
      }
    }
  }

  /**
   A retired slug leads in one hop to the live slug of the case that held it last, unless that
   case is closed, or a draft and the requester may not see drafts; an unknown slug leads nowhere.
   Only a case whose own slug is blank has no address to lead to.
   */
  lemma RedirectLeadsToLastHolder(actions: seq<Action>, slug: string, casework: bool)
    requires FreshRun(actions) && slug != "" && !Live(Run(actions), slug)
    ensures var r, to := Run(actions), Redirected(Run(actions), slug, casework);
            && (to != Answer.NotFound <==> exists id :: && LastHeldBy(actions, slug, id) && id in r.cases
                                                        && r.cases[id].state != Closed
                                                        && (r.cases[id].state == Draft ==> casework))
            && (to.MovedTo? ==> to.slug != "" && exists id :: LastHeldBy(actions, slug, id) && Holds(r, id, to.slug))
            && (to.NoAddress? ==> exists id :: LastHeldBy(actions, slug, id) && Holds(r, id, ""))
  {
    HistoryIsExact(actions);
    var r := Run(actions);
    if slug in r.history {
      var id := r.history[slug];
      assert LastHeldBy(actions, slug, id) && Holds(r, id, r.cases[id].slug);
      assert r.cases[id].slug != slug;
    }
  }

  // ----- the same save, seen from the case -----

  /** With a slug no other row has, a save of the case is refused over its slug exactly when it is refused here. */
  lemma SaveAgreesWithTheCase(r: Registry, id: nat, c: Case, i: Instance)
    requires id in r.cases && Named(i.row.slug, i.generated) != ""
    requires !TakenByOther(r, id, Named(i.row.slug, i.generated))
    ensures var slug, saved := Named(i.row.slug, i.generated), SavedInstance(c, i);
            && (SaveRefused(r, id, i.originalSlug, slug, i.row.state)
                <==> i.row.state != Draft && i.originalSlug !in {"", slug})
            && (saved.Ok? <==> && StagesFit(i.row.stages, Pending(i.courtCases, c.courtCases))
                               && !SaveRefused(r, id, i.originalSlug, slug, i.row.state))
            && (saved.Ok? ==> SavedRow(r, id, i.originalSlug, slug, i.row.state).cases
                              == r.cases[id := Entry(saved.value.row.slug, saved.value.row.state)])
  {
  }

  // ----- where the two conditions are exact -----

  /** Creating a case keeps every history row off the live slugs exactly when its slug is not retired. */
  lemma CreationIsSoundExactlyWhenFresh(r: Registry, id: nat, slug: string)
    requires Sound(r) && Registered(r, id, slug) != r
    ensures Sound(Registered(r, id, slug)) <==> slug !in r.history
  {
    if slug in r.history {
      assert Registered(r, id, slug).cases[id].slug in r.history;
    } else {
      CreateKeeps(r, id, slug);
    }
  }

  /** Every slug live or retired before is live or retired after; a blank one is no slug. */
  ghost predicate Remembers(r: Registry, after: Registry) {
    forall s | s != "" && (Live(r, s) || s in r.history) :: Live(after, s) || s in after.history
  }

  /**
   Whatever a saved instance was loaded with, however stale: the history keeps off the live
   slugs exactly when an unedited slug is not retired, or an edited one was not taken over
   meanwhile by another case.
   */
  lemma SaveIsSoundExactlyWhen(r: Registry, id: nat, original: string, slug: string, state: State)
    requires Sound(r) && !SaveRefused(r, id, original, slug, state)
    ensures Sound(SavedRow(r, id, original, slug, state))
            <==> if original == "" || original == slug then slug !in r.history
                 else !TakenByOther(r, id, original)
  {
    var after := SavedRow(r, id, original, slug, state);
    SavedShape(r, id, original, slug, state);
    if original == "" || original == slug {
      assert Sound(after) ==> after.cases[id].slug !in after.history;
    } else if other :| other in r.cases && other != id && r.cases[other].slug == original {
      assert after.cases[other].slug in after.history;
    }
  }

  /** Every save keeps all used slugs exactly when the row's own slug is the one written, the one loaded, or blank. */
  lemma SaveRemembersExactlyWhen(r: Registry, id: nat, original: string, slug: string, state: State)
    requires Sound(r) && !SaveRefused(r, id, original, slug, state)
    ensures Remembers(r, SavedRow(r, id, original, slug, state)) <==> r.cases[id].slug in {slug, original, ""}
  {
    var after := SavedRow(r, id, original, slug, state);
    SavedShape(r, id, original, slug, state);
    var lost := r.cases[id].slug;
    if lost in {slug, original, ""} {
      forall s | s != "" && (Live(r, s) || s in r.history)
        ensures Live(after, s) || s in after.history
      {
        if Live(r, s) {
          var x :| x in r.cases && r.cases[x].slug == s;
          assert x != id ==> after.cases[x].slug == s;
        }
        assert s == slug ==> after.cases[id].slug == s;
      }
    } else {
      assert Live(r, lost) && lost !in after.history;
      assert !Live(after, lost);
    }
  }

  /** A case re-slugged from "a" to "b" and back to "a" by an instance loaded before. */
  const STALE_SAVE: seq<Action> :=
    [Create(1, "a"), Save(1, "a", "b", Draft), Save(1, "a", "a", Draft)]

  /** Case 2 took over the slug "a" that an instance of case 1 still remembers. */
  const STALE_EDIT: seq<Action> :=
    [Create(1, "a"), Save(1, "a", "b", Draft), Create(2, "z"), Save(2, "z", "a", Draft), Save(1, "a", "c", Draft)]

  lemma RunSnoc(actions: seq<Action>, a: Action)
    ensures Run(actions + [a]) == After(Run(actions), a)
  {
    assert (actions + [a])[..|actions|] == actions;
  }

  lemma ResluggedRun()
    ensures Run(STALE_SAVE[..2]) == Registry(map[1 := Entry("b", Draft)], map["a" := 1])
  {
    RunSnoc([], STALE_SAVE[0]);
    assert [] + [STALE_SAVE[0]] == STALE_SAVE[..1];
    RunSnoc(STALE_SAVE[..1], STALE_SAVE[1]);
    assert STALE_SAVE[..2] == STALE_SAVE[..1] + [STALE_SAVE[1]];
  }

  /** The unedited stale save leaves its live slug in the history and forgets "b". */
  lemma StaleSaveGoesWrong()
    ensures Run(STALE_SAVE) == Registry(map[1 := Entry("a", Draft)], map["a" := 1])
  {
    ResluggedRun();
    RunSnoc(STALE_SAVE[..2], STALE_SAVE[2]);
    assert STALE_SAVE == STALE_SAVE[..2] + [STALE_SAVE[2]];
  }

  lemma TakenOverRun()
    ensures Run(STALE_EDIT[..4]) == Registry(map[1 := Entry("b", Draft), 2 := Entry("a", Draft)], map["z" := 2])
  {
    ResluggedRun();
    assert STALE_EDIT[..2] == STALE_SAVE[..2];
    RunSnoc(STALE_EDIT[..2], STALE_EDIT[2]);
    assert STALE_EDIT[..3] == STALE_EDIT[..2] + [STALE_EDIT[2]];
    assert Run(STALE_EDIT[..3]) == Registry(map[1 := Entry("b", Draft), 2 := Entry("z", Draft)], map["a" := 1]);
    RunSnoc(STALE_EDIT[..3], STALE_EDIT[3]);
    assert STALE_EDIT[..4] == STALE_EDIT[..3] + [STALE_EDIT[3]];
  }

  /** The edited one records "a" while case 2 holds it and forgets "b". */
  lemma StaleEditGoesWrong()
    ensures Run(STALE_EDIT) == Registry(map[1 := Entry("c", Draft), 2 := Entry("a", Draft)], map["z" := 2, "a" := 1])
  {
    TakenOverRun();
    RunSnoc(STALE_EDIT[..4], STALE_EDIT[4]);
    assert STALE_EDIT == STALE_EDIT[..4] + [STALE_EDIT[4]];
  }

  /** The slug of a case is blanked and then filled again, both in bulk. */
  const REFILLED: seq<Action> := [Create(1, "a"), BulkUpdate([1], ""), BulkUpdate([1], "a")]

  lemma BlankedRun()
    ensures Run(REFILLED[..2]) == Registry(map[1 := Entry("", Draft)], map["a" := 1])
  {
    RunSnoc([], REFILLED[0]);
    assert [] + [REFILLED[0]] == REFILLED[..1];
    var created := Run(REFILLED[..1]);
    assert created == Registry(map[1 := Entry("a", Draft)], map[]);
    RunSnoc(REFILLED[..1], REFILLED[1]);
    assert REFILLED[..2] == REFILLED[..1] + [REFILLED[1]];
    assert 1 in Rows(created, [1]);
    BulkIsOneReslug(created, [1], "");
  }

  /** The slug is live again and its history row stays. */
  lemma RefillGoesWrong()
    ensures Run(REFILLED) == Registry(map[1 := Entry("a", Draft)], map["a" := 1])
  {
    BlankedRun();
    RunSnoc(REFILLED[..2], REFILLED[2]);
    assert REFILLED == REFILLED[..2] + [REFILLED[2]];
    assert 1 in Rows(Run(REFILLED[..2]), [1]);
    BulkIsOneReslug(Run(REFILLED[..2]), [1], "a");
  }
}
