/**
 The docket merge sent to the server: the stage list of a case, merged with its trial dockets,
 as one PATCH of /dates against the case it was computed from.
 */
module DocketPatch {
  import opened Common
  import opened Stages
  import opened Cases
  import opened CaseLaws
  import opened CaseStages

  const DATES_PATH := "/dates"

  function MergeRequest(existing: seq<Stage>, dockets: seq<Docket>): Request {
    Request([Op("replace", DATES_PATH)], (doc: Doc) => Some(doc.(stages := Merge(existing, dockets))), "")
  }

  lemma OnlyDatesTouched(req: Request, state: State)
    requires req.ops == [Op("replace", DATES_PATH)]
    ensures PathsAllowed(req.ops, state)
    ensures !Touches(req.ops, "/entities") && !Touches(req.ops, "/evidence") && !Touches(req.ops, "/authors")
    ensures !Touches(req.ops, "/court_cases") && !Touches(req.ops, "/case_start_date")
    ensures !Touches(req.ops, "/case_end_date")
  {
    assert DATES_PATH[1] == 'd' && |DATES_PATH| == 6;
    assert ("/id" + "/")[1] == 'i' && ("/slug" + "/")[1] == 's';
    forall prefix | prefix in BLOCKED_PATH_PREFIXES
      ensures !IsUnder(DATES_PATH, prefix)
    {
      assert prefix == "/id" || |prefix| > 6;
    }
  }

  /**
   The PATCH is accepted exactly when no docket overtakes the half its stage keeps. It then
   stores the merged list and the two dates derived from it, leaves every join and the workflow
   alone, and merging the same dockets again would change nothing.
   */
  lemma MergePatchIsAcceptedExactlyWhen(c: Case, dockets: seq<Docket>)
    requires DatesConsistent(c) && c.row.state != Closed
    requires Distinct(Iris(dockets)) && forall d | d in dockets :: FromCourt(d) && d.iri in c.courtCases
    ensures var r := Patched(c, MergeRequest(c.row.stages, dockets));
            && (r.Ok? <==> forall d | d in dockets :: !Overtaken(TargetIn(c.row.stages, dockets, d), d))
            && (r.Err? ==> r.error == BadStages)
            && (r.Ok? ==>
                  && r.value.row.stages == Merge(c.row.stages, dockets)
                  && DatesConsistent(r.value)
                  && r.value == c.(row := r.value.row) && r.value.row.state == c.row.state
                  && Merge(r.value.row.stages, dockets) == r.value.row.stages)
  {
    var req := MergeRequest(c.row.stages, dockets);
    var doc := req.edit(Snapshot(c)).value;
    OnlyDatesTouched(req, c.row.state);
    assert Patched(c, req) == Committed(c, req, doc);
    assert RequestedStages(req, doc) == Ok(Merge(c.row.stages, dockets));
    MergeIsAccepted(c.row.stages, dockets, set iri | iri in c.courtCases);
    MergeIsIdempotent(c.row.stages, dockets);
    StagesAreJudgedByTheRequest(c, req, doc);
    UntouchedJoins(c, req, doc, Merge(c.row.stages, dockets));
    if Committed(c, req, doc).Ok? {
      CommittedKeepsDates(c, req, doc);
    }
  }

  lemma UntouchedJoins(c: Case, req: Request, doc: Doc, stages: seq<Stage>)
    requires !Touches(req.ops, "/entities") && !Touches(req.ops, "/evidence") && !Touches(req.ops, "/authors")
    requires !Touches(req.ops, "/court_cases") && doc.state == Some(c.row.state)
    ensures Written(c, req, doc, stages) == Ok(c.(row := ScalarsWritten(c.row, doc, stages)))
  {
  }
}
