/**
 Concurrent clients of one case: PATCHes that read their snapshot in several unlocked queries,
 the evidence binder that reads before it writes, and approvals of proposals. One step of a
 client is one query, or one action under the row lock; a schedule is any sequence of steps.
 */
module Serializability {
  import opened Common
  import opened Cases
  import opened CaseLaws

  // ----- If-Match -----

  /** One listed validator, its weak prefix, quotes and spaces already taken off. */
  datatype Candidate = Any | Version(version: nat) | Foreign

  datatype Header = NoHeader | Tokens(candidates: seq<Candidate>)

  /** The header lets a row of this version through. */
  predicate Matches(h: Header, version: nat) {
    h.NoHeader? || exists i | 0 <= i < |h.candidates| :: h.candidates[i] in {Any, Version(version)}
  }

  /** `_if_match_matches`. */
  method IfMatchMatches(h: Header, version: nat) returns (ok: bool)
    ensures ok <==> Matches(h, version)
  {
    if h.NoHeader? {
      return true;
    }
    for i := 0 to |h.candidates|
      invariant forall k | 0 <= k < i :: h.candidates[k] !in {Any, Version(version)}
    {
      if h.candidates[i] == Any {
        return true;
      }
      if h.candidates[i] == Version(version) {
        return true;
      }
    }
    ok := false;
  }

  /** What a careful client sends: no wildcard, and every listed version is the same one. */
  predicate Protected(h: Header) {
    && h.Tokens?
    && (forall i | 0 <= i < |h.candidates| :: h.candidates[i] != Any)
    && (forall i, j | 0 <= i < j < |h.candidates| ::
          h.candidates[i].Version? && h.candidates[j].Version? ==> h.candidates[i] == h.candidates[j])
  }

  /** A header is protected exactly when it cannot match two versions of the row. */
  lemma ProtectedAdmitsOneVersion(h: Header)
    ensures Protected(h) <==> forall v: nat, w: nat | Matches(h, v) && Matches(h, w) :: v == w
  {
    if !Protected(h) {
      assert exists v: nat, w: nat :: v != w && Matches(h, v) && Matches(h, w) by {
        if h.NoHeader? || exists i | 0 <= i < |h.candidates| :: h.candidates[i] == Any {
          assert Matches(h, 0) && Matches(h, 1);
        } else {
          var i, j :| 0 <= i < j < |h.candidates| && h.candidates[i].Version? && h.candidates[j].Version?
                      && h.candidates[i] != h.candidates[j];
          assert Matches(h, h.candidates[i].version) && Matches(h, h.candidates[j].version);
        }
      }
    }
  }

  const OLD_ROW := Row("a", Draft, [], None, None, "", "", "", None, [], map[], 0)

  function CaseAt(version: nat, timeline: seq<string>): Case {
    Case(OLD_ROW.(version := version, timeline := timeline), [], [], [], [], [])
  }

  /** What the server does once the locked check passes is what a lone PATCH would do. */
  ghost predicate CommitsSerially(read: Case, locked: Case, req: Request) {
    && read.row.state != Closed && PathsAllowed(req.ops, read.row.state)
    && req.edit(Snapshot(read)).Some?
    ==> Committed(locked, req, req.edit(Snapshot(read)).value) == Patched(locked, req)
  }

  /**
   The locked check makes a PATCH serial exactly for protected headers: both checks passing
   then forces the snapshot to be the locked case; any other header lets a stale one through.
   */
  lemma LockedCheckIsExact(h: Header)
    ensures Protected(h)
            <==> forall read: Case, locked: Case, req: Request
                   | && Matches(h, read.row.version) && Matches(h, locked.row.version)
                     && (read.row.version == locked.row.version ==> read == locked)
                   :: CommitsSerially(read, locked, req)
  {
    ProtectedAdmitsOneVersion(h);
    if !Protected(h) {
      var v: nat, w: nat :| Matches(h, v) && Matches(h, w) && v != w;
      var read, locked := CaseAt(v, []), CaseAt(w, ["an entry added meanwhile"]);
      var req := Request([], (doc: Doc) => Some(doc), "");
      StaleSnapshotLosesTheEntry(read, locked, req);
      assert !CommitsSerially(read, locked, req);
    }
  }

  lemma StaleSnapshotLosesTheEntry(read: Case, locked: Case, req: Request)
    requires read == CaseAt(read.row.version, []) && locked == CaseAt(locked.row.version, ["an entry added meanwhile"])
    requires req.ops == [] && forall doc :: req.edit(doc) == Some(doc)
    ensures Patched(locked, req).Ok? && Patched(locked, req).value.row.timeline == ["an entry added meanwhile"]
    ensures Committed(locked, req, Snapshot(read)).Ok?
    ensures Committed(locked, req, Snapshot(read)).value.row.timeline == []
  {
  }

  // ----- the protocol -----

  datatype Job =
    | Edit(header: Header, req: Request)
    | Decide(intent: Intent)
    /** Read the row, then the evidence; PATCH what `plan` makes of them under the row's token. */
    | ReadThenPatch(plan: (Row, seq<Evidence>) -> Option<Request>)

  datatype Reply = Success | Refused(why: Refusal) | NothingToWrite

  datatype Phase =
    | Start
    | GotToken(row: Row)
    | GotRow(row: Row)
    | GotEvidence(row: Row, evidence: seq<Evidence>)
    | GotBinds(row: Row, evidence: seq<Evidence>, binds: seq<Bind>)
    | GotDockets(row: Row, evidence: seq<Evidence>, binds: seq<Bind>, courtCases: seq<string>)
    /** The patched document, and the version of the row its snapshot began with. */
    | Patching(doc: Doc, readAt: nat)
    | Locked(doc: Doc, readAt: nat)
    | Checked(doc: Doc, readAt: nat)
    | Deciding
    | Finished(reply: Reply)

  /** What a ReadThenPatch client read, and what it builds its request with. */
  datatype Plan = Plan(row: Row, evidence: seq<Evidence>, make: (Row, seq<Evidence>) -> Option<Request>)

  datatype Client = Client(job: Job, phase: Phase, planned: Option<Plan>)

  datatype Commit = Commit(client: nat, job: Job, planned: Option<Plan>)

  /** `commits` records the successful writes in commit order; no client reads it. */
  datatype World = World(stored: Case, lock: Option<nat>, clients: seq<Client>, commits: seq<Commit>)

  predicate Begins(w: World) {
    w.lock == None && w.commits == []
    && forall i | 0 <= i < |w.clients| :: w.clients[i].phase == Start && w.clients[i].planned.None?
  }

  function To(w: World, i: nat, phase: Phase): World
    requires i < |w.clients|
  {
    w.(clients := w.clients[i := w.clients[i].(phase := phase)])
  }

  function Released(w: World, i: nat, reply: Reply): World
    requires i < |w.clients|
  {
    To(w, i, Finished(reply)).(lock := None)
  }

  ghost function Commits(w: World, i: nat, r: Result<Case, Refusal>): World
    requires i < |w.clients|
  {
    match r
    case Err(e) => Released(w, i, Refused(e))
    case Ok(next) =>
      Released(w, i, Success).(
        stored := next,
        commits := w.commits + [Commit(i, w.clients[i].job, w.clients[i].planned)])
  }

  /** The unlocked part of `partial_update`: gates and the five reads of the snapshot. */
  function Read(client: Client, c: Case): Phase
    requires client.job.Edit?
  {
    var (header, req) := (client.job.header, client.job.req);
    match client.phase
    case Start =>
      if c.row.state == Closed then Finished(Refused(NotFound))
      else if !Matches(header, c.row.version) then Finished(Refused(Stale))
      else if !PathsAllowed(req.ops, c.row.state) then Finished(Refused(BlockedPath))
      else GotRow(c.row)
    case GotRow(row) => GotEvidence(row, c.evidence)
    case GotEvidence(row, evidence) => GotBinds(row, evidence, c.binds)
    case GotBinds(row, evidence, binds) => GotDockets(row, evidence, binds, c.courtCases)
    case GotDockets(row, evidence, binds, courtCases) =>
      (match req.edit(SnapshotOf(row, evidence, binds, courtCases, c.authors))
       case None => Finished(Refused(BadPatch))
       case Some(doc) => Patching(doc, row.version))
    case other => other
  }

  /** The locked part: acquire, re-check the token, commit or refuse. */
  ghost function Writes(w: World, i: nat): World
    requires i < |w.clients| && w.clients[i].job.Edit?
  {
    match w.clients[i].phase
    case Patching(doc, readAt) =>
      if w.lock.Some? then w else To(w, i, Locked(doc, readAt)).(lock := Some(i))
    case Locked(doc, readAt) =>
      if Matches(w.clients[i].job.header, w.stored.row.version) then To(w, i, Checked(doc, readAt))
      else Released(w, i, Refused(Stale))
    case Checked(doc, _) => Commits(w, i, Committed(w.stored, w.clients[i].job.req, doc))
    case _ => w
  }

  /** An approval: lock the case, apply the intent. */
  ghost function Approves(w: World, i: nat): World
    requires i < |w.clients| && w.clients[i].job.Decide?
  {
    match w.clients[i].phase
    case Start => if w.lock.Some? then w else To(w, i, Deciding).(lock := Some(i))
    case Deciding => Commits(w, i, Applied(w.stored, w.clients[i].job.intent))
    case _ => w
  }

  /** The binder's GET, one query at a time; then it goes on as a PATCH under its token. */
  function Plans(w: World, i: nat): World
    requires i < |w.clients| && w.clients[i].job.ReadThenPatch?
  {
    match w.clients[i].phase
    case Start =>
      if w.stored.row.state == Closed then To(w, i, Finished(Refused(NotFound)))
      else To(w, i, GotToken(w.stored.row))
    case GotToken(row) =>
      (match w.clients[i].job.plan(row, w.stored.evidence)
       case None => To(w, i, Finished(NothingToWrite))
       case Some(req) =>
         w.(clients := w.clients[i := Client(Edit(Tokens([Version(row.version)]), req), Start,
                                             Some(Plan(row, w.stored.evidence, w.clients[i].job.plan)))]))
    case _ => w
  }

  /** The next action of client i; a client that waits for the lock stays where it is. */
  ghost function Step(w: World, i: nat): World {
    if i >= |w.clients| then w
    else match w.clients[i].job
      case Edit(_, _) =>
        if w.clients[i].phase.Patching? || w.clients[i].phase.Locked? || w.clients[i].phase.Checked?
        then Writes(w, i) else To(w, i, Read(w.clients[i], w.stored))
      case Decide(_) => Approves(w, i)
      case ReadThenPatch(_) => Plans(w, i)
  }

  ghost function Play(w: World, schedule: seq<nat>): World {
    if schedule == [] then w
    else Step(Play(w, schedule[..|schedule| - 1]), schedule[|schedule| - 1])
  }

  // ----- the sequential reading -----

  /** The same job with nothing else running. */
  ghost function Alone(c: Case, job: Job): Result<Case, Refusal> {
    match job
    case Edit(_, req) => Patched(c, req)
    case Decide(intent) => Applied(c, intent)
    case ReadThenPatch(_) => Err(BadPatch)
  }

  ghost function Replay(c: Case, commits: seq<Commit>): Case {
    if commits == [] then c
    else
      var before := Replay(c, commits[..|commits| - 1]);
      match Alone(before, commits[|commits| - 1].job)
      case Ok(after) => after
      case Err(_) => before
  }

  /** Commit k, run alone on what the earlier ones left, succeeds, and read what it replaced. */
  ghost predicate CommitIsSerial(c: Case, commits: seq<Commit>, k: nat)
    requires k < |commits|
  {
    var before := Replay(c, commits[..k]);
    && Alone(before, commits[k].job).Ok?
    && (commits[k].job.Edit? ==> Matches(commits[k].job.header, before.row.version))
    && (commits[k].planned.Some? ==>
          && commits[k].planned.value.row == before.row && commits[k].planned.value.evidence == before.evidence
          && commits[k].job.Edit? && commits[k].planned.value.make(before.row, before.evidence).Some?
          && commits[k].planned.value.make(before.row, before.evidence).value == commits[k].job.req)
  }

  ghost predicate Serial(c: Case, commits: seq<Commit>) {
    forall k | 0 <= k < |commits| :: CommitIsSerial(c, commits, k)
  }

  // ----- the invariant -----

  /** Rows of equal version are the same row: every effective commit makes the version fresh. */
  predicate Advanced(before: Case, after: Case) {
    before.row.version <= after.row.version && (before.row.version == after.row.version ==> before == after)
  }

  lemma CommittedAdvances(c: Case, req: Request, doc: Doc)
    requires Committed(c, req, doc).Ok?
    ensures c.row.version < Committed(c, req, doc).value.row.version
  {
    WrittenShape(c, req, doc, RequestedStages(req, doc).value);
  }

  predicate GatesPassed(job: Job, row: Row)
    requires job.Edit?
  {
    row.state != Closed && PathsAllowed(job.req.ops, row.state) && Matches(job.header, row.version)
  }

  /** What a reading client holds was read no later than now, and is current if its row is. */
  predicate ReadOk(client: Client, c: Case)
    requires client.job.Edit?
  {
    match client.phase
    case GotRow(row) =>
      GatesPassed(client.job, row) && row.version <= c.row.version
      && (row.version == c.row.version ==> row == c.row)
    case GotEvidence(row, evidence) =>
      GatesPassed(client.job, row) && row.version <= c.row.version
      && (row.version == c.row.version ==> row == c.row && evidence == c.evidence)
    case GotBinds(row, evidence, binds) =>
      GatesPassed(client.job, row) && row.version <= c.row.version
      && (row.version == c.row.version ==> row == c.row && evidence == c.evidence && binds == c.binds)
    case GotDockets(row, evidence, binds, courtCases) =>
      GatesPassed(client.job, row) && row.version <= c.row.version
      && (row.version == c.row.version ==>
            row == c.row && evidence == c.evidence && binds == c.binds && courtCases == c.courtCases)
    case _ => true
  }

  /** The document a client is about to write is its patch of the stored case, if still current. */
  predicate WriteOk(client: Client, c: Case)
    requires client.job.Edit?
  {
    client.phase.Patching? || client.phase.Locked? || client.phase.Checked? ==>
      && client.phase.readAt <= c.row.version && Matches(client.job.header, client.phase.readAt)
      && (client.phase.readAt == c.row.version ==>
            && c.row.state != Closed && PathsAllowed(client.job.req.ops, c.row.state)
            && client.job.req.edit(Snapshot(c)) == Some(client.phase.doc))
      && (client.phase.Checked? ==> Matches(client.job.header, c.row.version))
  }

  ghost predicate PlanOk(client: Client, c: Case) {
    client.planned.Some? ==>
      var plan := client.planned.value;
      && client.job.Edit? && client.job.header == Tokens([Version(plan.row.version)])
      && plan.make(plan.row, plan.evidence).Some?
      && plan.make(plan.row, plan.evidence).value == client.job.req
      && plan.row.version <= c.row.version
      && (plan.row.version == c.row.version ==> plan.row == c.row && plan.evidence == c.evidence)
  }

  ghost predicate ClientOk(client: Client, c: Case) {
    && PlanOk(client, c)
    && match client.job
       case Edit(header, _) => Protected(header) && ReadOk(client, c) && WriteOk(client, c) && !client.phase.Deciding?
       case Decide(_) => client.phase.Start? || client.phase.Deciding? || client.phase.Finished?
       case ReadThenPatch(_) =>
         && (client.phase.Start? || client.phase.GotToken? || client.phase.Finished?)
         && client.phase != Finished(Success)
         && (client.phase.GotToken? ==>
               && client.phase.row.version <= c.row.version
               && (client.phase.row.version == c.row.version ==> client.phase.row == c.row))
  }

  predicate Holds(phase: Phase) {
    phase.Locked? || phase.Checked? || phase.Deciding?
  }

  ghost predicate ClientsOk(w: World) {
    forall i | 0 <= i < |w.clients| ::
      ClientOk(w.clients[i], w.stored) && (w.lock == Some(i) <==> Holds(w.clients[i].phase))
  }

  /** Every success is one commit of that client and that job, and there are no others. */
  ghost predicate CommitsOk(w: World) {
    && (forall k | 0 <= k < |w.commits| ::
          && w.commits[k].client < |w.clients|
          && w.clients[w.commits[k].client].phase == Finished(Success)
          && w.commits[k].job == w.clients[w.commits[k].client].job)
    && (forall k, l | 0 <= k < l < |w.commits| :: w.commits[k].client != w.commits[l].client)
    && (forall i | 0 <= i < |w.clients| && w.clients[i].phase == Finished(Success) ::
          exists k :: 0 <= k < |w.commits| && w.commits[k].client == i)
  }

  ghost predicate Inv(c: Case, w: World) {
    ClientsOk(w) && CommitsOk(w) && Serial(c, w.commits) && Replay(c, w.commits) == w.stored
  }

  // ----- every step keeps it -----

  lemma AdvanceKeepsClient(client: Client, before: Case, after: Case)
    requires ClientOk(client, before) && Advanced(before, after) && !client.phase.Checked?
    ensures ClientOk(client, after)
  {
  }

  lemma MoveKeepsClients(w: World, i: nat, phase: Phase)
    requires ClientsOk(w) && i < |w.clients|
    requires ClientOk(w.clients[i].(phase := phase), w.stored)
    requires Holds(phase) <==> Holds(w.clients[i].phase)
    ensures ClientsOk(To(w, i, phase))
  {
  }

  lemma MoveKeepsCommits(w: World, i: nat, phase: Phase)
    requires CommitsOk(w) && i < |w.clients|
    requires !w.clients[i].phase.Finished? && phase != Finished(Success)
    ensures CommitsOk(To(w, i, phase))
  {
    var next := To(w, i, phase);
    forall j | 0 <= j < |next.clients| && next.clients[j].phase == Finished(Success)
      ensures exists k :: 0 <= k < |next.commits| && next.commits[k].client == j
    {
      assert w.clients[j].phase == Finished(Success);
    }
  }

  lemma ReadKeepsClient(client: Client, c: Case)
    requires client.job.Edit? && ClientOk(client, c) && !Holds(client.phase)
    ensures ClientOk(client.(phase := Read(client, c)), c)
    ensures (!Holds(Read(client, c)) && Read(client, c) != Finished(Success)) || Read(client, c) == client.phase
  {
  }

  lemma ReadsKeep(c: Case, w: World, i: nat)
    requires Inv(c, w) && i < |w.clients| && w.clients[i].job.Edit?
    requires !Holds(w.clients[i].phase)
    ensures Inv(c, To(w, i, Read(w.clients[i], w.stored)))
  {
    var phase := Read(w.clients[i], w.stored);
    ReadKeepsClient(w.clients[i], w.stored);
    if phase == w.clients[i].phase {
      assert To(w, i, phase) == w;
    } else {
      MoveKeepsClients(w, i, phase);
      MoveKeepsCommits(w, i, phase);
    }
  }

  lemma PlansKeep(c: Case, w: World, i: nat)
    requires Inv(c, w) && i < |w.clients| && w.clients[i].job.ReadThenPatch?
    ensures Inv(c, Plans(w, i))
  {
    var next := Plans(w, i);
    var client := w.clients[i];
    if client.phase.Start? || (client.phase.GotToken? && client.job.plan(client.phase.row, w.stored.evidence).None?) {
      var phase := next.clients[i].phase;
      assert next == To(w, i, phase);
      MoveKeepsClients(w, i, phase);
      MoveKeepsCommits(w, i, phase);
    } else if client.phase.GotToken? {
      PlanBecomesARequest(c, w, i);
    }
  }

  lemma PlanBecomesARequest(c: Case, w: World, i: nat)
    requires Inv(c, w) && i < |w.clients| && w.clients[i].job.ReadThenPatch? && w.clients[i].phase.GotToken?
    requires w.clients[i].job.plan(w.clients[i].phase.row, w.stored.evidence).Some?
    ensures Inv(c, Plans(w, i))
  {
    var next := Plans(w, i);
    assert Protected(Tokens([Version(w.clients[i].phase.row.version)]));
    RequestKeepsCommits(w, i, next.clients[i]);
    assert ClientOk(next.clients[i], w.stored);
  }

  lemma RequestKeepsCommits(w: World, i: nat, client: Client)
    requires CommitsOk(w) && i < |w.clients| && !w.clients[i].phase.Finished? && !client.phase.Finished?
    ensures CommitsOk(w.(clients := w.clients[i := client]))
  {
    var next := w.(clients := w.clients[i := client]);
    forall j | 0 <= j < |next.clients| && next.clients[j].phase == Finished(Success)
      ensures exists k :: 0 <= k < |next.commits| && next.commits[k].client == j
    {
      assert w.clients[j].phase == Finished(Success);
    }
  }

  lemma CommitKeepsClients(w: World, i: nat, r: Result<Case, Refusal>)
    requires ClientsOk(w) && i < |w.clients| && w.lock == Some(i)
    requires r.Ok? ==> Advanced(w.stored, r.value)
    ensures ClientsOk(Commits(w, i, r))
  {
    var next := Commits(w, i, r);
    forall j | 0 <= j < |next.clients|
      ensures ClientOk(next.clients[j], next.stored) && (next.lock == Some(j) <==> Holds(next.clients[j].phase))
    {
      assert ClientOk(w.clients[j], w.stored) && (w.lock == Some(j) <==> Holds(w.clients[j].phase));
      if j != i {
        AdvanceKeepsClient(w.clients[j], w.stored, next.stored);
      }
    }
  }

  lemma CommitsKeep(c: Case, w: World, i: nat, r: Result<Case, Refusal>)
    requires Inv(c, w) && i < |w.clients| && w.lock == Some(i)
    requires r == Alone(w.stored, w.clients[i].job)
    requires r.Ok? ==> Advanced(w.stored, r.value)
    requires w.clients[i].job.Edit? ==> Matches(w.clients[i].job.header, w.stored.row.version)
    ensures Inv(c, Commits(w, i, r))
  {
    CommitKeepsClients(w, i, r);
    assert Holds(w.clients[i].phase);
    if r.Err? {
      MoveKeepsCommits(w, i, Finished(Refused(r.error)));
    } else {
      SuccessIsRecorded(w, i, r.value);
      SerialSnoc(c, w.commits, Commit(i, w.clients[i].job, w.clients[i].planned));
    }
  }

  lemma SuccessIsRecorded(w: World, i: nat, after: Case)
    requires CommitsOk(w) && i < |w.clients| && !w.clients[i].phase.Finished?
    ensures CommitsOk(Commits(w, i, Ok(after)))
  {
    var next := Commits(w, i, Ok(after));
    var n := |w.commits|;
    assert next.commits[n].client == i;
    assert forall k | 0 <= k < n :: next.commits[k] == w.commits[k] && w.commits[k].client != i;
    assert forall j | 0 <= j < |w.clients| && j != i :: next.clients[j] == w.clients[j];
    forall j | 0 <= j < |next.clients| && next.clients[j].phase == Finished(Success)
      ensures exists k :: 0 <= k < |next.commits| && next.commits[k].client == j
    {
      if j != i {
        var k :| 0 <= k < n && w.commits[k].client == j;
        assert next.commits[k].client == j;
      }
    }
  }

  lemma SerialSnoc(c: Case, commits: seq<Commit>, last: Commit)
    requires Serial(c, commits)
    requires CommitIsSerial(c, commits + [last], |commits|)
    ensures Serial(c, commits + [last])
  {
    var all := commits + [last];
    forall k | 0 <= k < |all|
      ensures CommitIsSerial(c, all, k)
    {
      if k < |commits| {
        assert all[..k] == commits[..k];
        assert CommitIsSerial(c, commits, k);
      }
    }
  }

  lemma AloneAdvances(c: Case, job: Job)
    requires Alone(c, job).Ok?
    ensures Advanced(c, Alone(c, job).value)
  {
    match job
    case Edit(_, req) => CommittedAdvances(c, req, req.edit(Snapshot(c)).value);
    case Decide(intent) => IntentsReachOnly(c, intent);
  }

  lemma WritesKeep(c: Case, w: World, i: nat)
    requires Inv(c, w) && i < |w.clients| && w.clients[i].job.Edit?
    ensures Inv(c, Writes(w, i))
  {
    var client := w.clients[i];
    assert w.lock == Some(i) <==> Holds(client.phase);
    match client.phase
    case Patching(doc, readAt) =>
      if w.lock == None {
        LockKeeps(c, w, i, Locked(doc, readAt));
      }
    case Locked(doc, readAt) =>
      LockedWriteKeeps(c, w, i);
    case Checked(doc, readAt) =>
      CheckedWriteKeeps(c, w, i);
    case _ =>
  }

  lemma LockedWriteKeeps(c: Case, w: World, i: nat)
    requires Inv(c, w) && i < |w.clients| && w.clients[i].job.Edit? && w.clients[i].phase.Locked?
    ensures Inv(c, Writes(w, i))
  {
    var client := w.clients[i];
    assert w.lock == Some(i);
    if Matches(client.job.header, w.stored.row.version) {
      MoveKeepsClients(w, i, Checked(client.phase.doc, client.phase.readAt));
      MoveKeepsCommits(w, i, Checked(client.phase.doc, client.phase.readAt));
    } else {
      ReleaseKeeps(c, w, i, Refused(Stale));
    }
  }

  lemma CheckedWriteKeeps(c: Case, w: World, i: nat)
    requires Inv(c, w) && i < |w.clients| && w.clients[i].job.Edit? && w.clients[i].phase.Checked?
    ensures Inv(c, Writes(w, i))
  {
    var client := w.clients[i];
    var doc := client.phase.doc;
    assert w.lock == Some(i);
    ProtectedAdmitsOneVersion(client.job.header);
    assert client.phase.readAt == w.stored.row.version;
    assert Committed(w.stored, client.job.req, doc) == Alone(w.stored, client.job);
    if Committed(w.stored, client.job.req, doc).Ok? {
      AloneAdvances(w.stored, client.job);
    }
    CommitsKeep(c, w, i, Committed(w.stored, client.job.req, doc));
  }

  lemma LockKeeps(c: Case, w: World, i: nat, phase: Phase)
    requires Inv(c, w) && i < |w.clients| && w.lock == None && !w.clients[i].phase.Finished?
    requires ClientOk(w.clients[i].(phase := phase), w.stored) && Holds(phase)
    ensures Inv(c, To(w, i, phase).(lock := Some(i)))
  {
    MoveKeepsCommits(w, i, phase);
  }

  lemma ReleaseKeepsClients(w: World, i: nat, reply: Reply)
    requires ClientsOk(w) && i < |w.clients| && w.lock == Some(i) && reply != Success
    ensures ClientsOk(Released(w, i, reply))
  {
    assert ClientOk(w.clients[i], w.stored);
    assert ClientOk(w.clients[i].(phase := Finished(reply)), w.stored);
  }

  lemma ReleaseKeeps(c: Case, w: World, i: nat, reply: Reply)
    requires Inv(c, w) && i < |w.clients| && w.lock == Some(i) && reply != Success
    ensures Inv(c, Released(w, i, reply))
  {
    assert Holds(w.clients[i].phase);
    ReleaseKeepsClients(w, i, reply);
    MoveKeepsCommits(w, i, Finished(reply));
  }

  lemma ApprovesKeep(c: Case, w: World, i: nat)
    requires Inv(c, w) && i < |w.clients| && w.clients[i].job.Decide?
    ensures Inv(c, Approves(w, i))
  {
    var client := w.clients[i];
    assert w.lock == Some(i) <==> Holds(client.phase);
    if client.phase.Start? && w.lock == None {
      LockKeeps(c, w, i, Deciding);
    } else if client.phase.Deciding? {
      if Applied(w.stored, client.job.intent).Ok? {
        AloneAdvances(w.stored, client.job);
      }
      CommitsKeep(c, w, i, Applied(w.stored, client.job.intent));
    }
  }

  lemma StepKeeps(c: Case, w: World, i: nat)
    requires Inv(c, w)
    ensures Inv(c, Step(w, i))
  {
    if i < |w.clients| {
      match w.clients[i].job
      case Edit(_, _) =>
        if w.clients[i].phase.Patching? || Holds(w.clients[i].phase) {
          WritesKeep(c, w, i);
        } else {
          ReadsKeep(c, w, i);
        }
      case Decide(_) => ApprovesKeep(c, w, i);
      case ReadThenPatch(_) => PlansKeep(c, w, i);
    }
  }

  // ----- the theorem -----

  /** Every PATCH of the world carries a protected header. */
  predicate AllProtected(w: World) {
    forall i | 0 <= i < |w.clients| && w.clients[i].job.Edit? :: Protected(w.clients[i].job.header)
  }

  /**
   Serializability. In every interleaving the stored case is what the successful jobs make of
   the initial one, run alone one after another in commit order, each on what the previous
   one left and under a header naming that very version; a planned write was planned on the
   very evidence it replaces. Each success is one commit, and nothing else is.
   */
  lemma {:induction false} EveryScheduleIsSerial(w: World, schedule: seq<nat>)
    requires Begins(w) && AllProtected(w)
    ensures var end := Play(w, schedule);
            && Serial(w.stored, end.commits)
            && end.stored == Replay(w.stored, end.commits)
            && CommitsOk(end)
    ensures Inv(w.stored, Play(w, schedule))
  {
    if schedule != [] {
      EveryScheduleIsSerial(w, schedule[..|schedule| - 1]);
      StepKeeps(w.stored, Play(w, schedule[..|schedule| - 1]), schedule[|schedule| - 1]);
    }
  }

  /** The write that a job is when it runs alone. */
  function ActionOf(job: Job): Action {
    match job
    case Edit(_, req) => Patch(req)
    case Decide(intent) => Approve(intent)
    case ReadThenPatch(_) => Approve(UnknownIntent)
  }

  function ActionsOf(commits: seq<Commit>): (actions: seq<Action>)
    ensures |actions| == |commits| && forall k | 0 <= k < |commits| :: actions[k] == ActionOf(commits[k].job)
  {
    seq(|commits|, k requires 0 <= k < |commits| => ActionOf(commits[k].job))
  }

  lemma {:induction false} ReplayIsARun(c: Case, commits: seq<Commit>)
    ensures Replay(c, commits) == Run(c, ActionsOf(commits))
    ensures StateSpared(c, ActionsOf(commits))
  {
    if commits != [] {
      var n := |commits| - 1;
      ReplayIsARun(c, commits[..n]);
      assert ActionsOf(commits)[..n] == ActionsOf(commits[..n]);
      assert Alone(Replay(c, commits[..n]), commits[n].job).Ok?
          ==> Alone(Replay(c, commits[..n]), commits[n].job)
              == Attempt(Replay(c, commits[..n]), ActionOf(commits[n].job));
    }
  }

  /**
   What every run of writes keeps, every interleaving of clients keeps: the stored dates are the
   derived ones and the cited dockets bound, the joins are ordered, the log is a connected path
   that only grows, and CLOSED is never left.
   */
  lemma EveryScheduleKeepsTheCase(w: World, schedule: seq<nat>)
    requires Begins(w) && AllProtected(w)
    requires DatesConsistent(w.stored) && JoinsOrdered(w.stored) && WorkflowLogged(w.stored)
    ensures var end := Play(w, schedule).stored;
            && DatesConsistent(end) && JoinsOrdered(end) && WorkflowLogged(end)
            && w.stored.log <= end.log
            && (w.stored.row.state == Closed ==> end.row.state == Closed)
            && forall s | s in end.row.stages && s.Stage? && s.iri != "" :: s.iri in end.courtCases
  {
    EveryScheduleIsSerial(w, schedule);
    var commits := Play(w, schedule).commits;
    ReplayIsARun(w.stored, commits);
    DatesStayConsistent(w.stored, ActionsOf(commits));
    JoinsStayOrdered(w.stored, ActionsOf(commits));
    WorkflowOfEveryRun(w.stored, ActionsOf(commits));
  }

  /** Commit k leads from one replayed case to the next. */
  lemma CommitReplays(c: Case, commits: seq<Commit>, k: nat)
    requires Serial(c, commits) && k < |commits|
    ensures CommitIsSerial(c, commits, k)
    ensures Alone(Replay(c, commits[..k]), commits[k].job) == Ok(Replay(c, commits[..k + 1]))
  {
    assert commits[..k + 1][..k] == commits[..k];
    assert CommitIsSerial(c, commits, k);
  }

  /** A step that is not a successful commit, a refusal among them, changes no stored value. */
  lemma OnlySuccessWrites(w: World, i: nat)
    ensures var next := Step(w, i);
            || (next.stored == w.stored && next.commits == w.commits)
            || (&& i < |w.clients| && next.clients[i].phase == Finished(Success)
                && |next.commits| == |w.commits| + 1 && next.commits[|w.commits|].client == i)
  {
  }

  // ----- a client on its own -----

  function Lone(c: Case, job: Job): World {
    World(c, None, [Client(job, Start, None)], [])
  }

  lemma PlayOne(w: World, n: nat)
    ensures Play(w, seq(n + 1, _ => 0)) == Step(Play(w, seq(n, _ => 0)), 0)
  {
    assert seq(n + 1, _ => 0)[..n] == seq(n, _ => 0);
  }

  /**
   With no one else running, the eight steps of a PATCH are its token check between the lookup
   and the gates, and then `Patched`.
   */
  lemma LonePatchIsSequential(c: Case, h: Header, req: Request)
    ensures var end := Play(Lone(c, Edit(h, req)), seq(8, _ => 0));
            var lets := c.row.state == Closed || Matches(h, c.row.version);
            && end.stored == (if lets then After(c, Patch(req)) else c)
            && end.lock == None
            && end.clients == [Client(Edit(h, req),
                                      Finished(if !lets then Refused(Stale)
                                               else match Patched(c, req)
                                                 case Ok(_) => Success
                                                 case Err(e) => Refused(e)),
                                      None)]
  {
    LonePlay(c, h, req, 8);
    LoneEnd(c, h, req);
  }

  lemma LoneEnd(c: Case, h: Header, req: Request)
    ensures var end := LoneAfter(c, h, req, 8);
            var lets := c.row.state == Closed || Matches(h, c.row.version);
            && end.stored == (if lets then After(c, Patch(req)) else c)
            && end.lock == None
            && end.clients == [Client(Edit(h, req),
                                      Finished(if !lets then Refused(Stale)
                                               else match Patched(c, req)
                                                 case Ok(_) => Success
                                                 case Err(e) => Refused(e)),
                                      None)]
  {
    if c.row.state != Closed && Matches(h, c.row.version) && PathsAllowed(req.ops, c.row.state)
       && req.edit(Snapshot(c)).Some? {
      var doc := req.edit(Snapshot(c)).value;
      CommitsAlone(Lone(c, Edit(h, req)), Committed(c, req, doc));
      assert Patched(c, req) == Committed(c, req, doc);
    }
  }

  lemma CommitsAlone(w: World, r: Result<Case, Refusal>)
    requires |w.clients| == 1 && w.lock == None
    ensures var end := Commits(w, 0, r);
            && end.stored == (match r case Ok(after) => after case Err(_) => w.stored)
            && end.lock == None
            && end.clients == [w.clients[0].(phase := Finished(match r
                                                               case Ok(_) => Success
                                                               case Err(e) => Refused(e)))]
  {
  }

  lemma {:induction false} LonePlay(c: Case, h: Header, req: Request, n: nat)
    requires n <= 8
    ensures Play(Lone(c, Edit(h, req)), seq(n, _ => 0)) == LoneAfter(c, h, req, n)
  {
    if n > 0 {
      LonePlay(c, h, req, n - 1);
      PlayOne(Lone(c, Edit(h, req)), n - 1);
      LoneStep(c, h, req, n - 1);
    }
  }

  lemma LoneStep(c: Case, h: Header, req: Request, n: nat)
    requires n < 8
    ensures Step(LoneAfter(c, h, req, n), 0) == LoneAfter(c, h, req, n + 1)
  {
    if n == 0 {
      LoneStart(c, h, req);
    } else if n < 5 {
      LoneRead(c, h, req, n);
    } else {
      LoneWrite(c, h, req, n);
    }
  }

  lemma LoneWrite(c: Case, h: Header, req: Request, n: nat)
    requires 5 <= n < 8
    ensures Step(LoneAfter(c, h, req, n), 0) == LoneAfter(c, h, req, n + 1)
  {
    if n == 5 {
      LoneLock(c, h, req);
    } else if n == 6 {
      LoneCheck(c, h, req);
    } else {
      LoneCommit(c, h, req);
    }
  }

  /** Where the lone PATCH is after n of its steps. */
  ghost function LoneAfter(c: Case, h: Header, req: Request, n: nat): World {
    var w := Lone(c, Edit(h, req));
    if n == 0 then w
    else if c.row.state == Closed then To(w, 0, Finished(Refused(NotFound)))
    else if !Matches(h, c.row.version) then To(w, 0, Finished(Refused(Stale)))
    else if !PathsAllowed(req.ops, c.row.state) then To(w, 0, Finished(Refused(BlockedPath)))
    else if n == 1 then To(w, 0, GotRow(c.row))
    else if n == 2 then To(w, 0, GotEvidence(c.row, c.evidence))
    else if n == 3 then To(w, 0, GotBinds(c.row, c.evidence, c.binds))
    else if n == 4 then To(w, 0, GotDockets(c.row, c.evidence, c.binds, c.courtCases))
    else match req.edit(Snapshot(c))
      case None => To(w, 0, Finished(Refused(BadPatch)))
      case Some(doc) =>
        if n == 5 then To(w, 0, Patching(doc, c.row.version))
        else if n == 6 then To(w, 0, Locked(doc, c.row.version)).(lock := Some(0))
        else if n == 7 then To(w, 0, Checked(doc, c.row.version)).(lock := Some(0))
        else Commits(w, 0, Committed(c, req, doc))
  }

  lemma LoneStart(c: Case, h: Header, req: Request)
    ensures Step(LoneAfter(c, h, req, 0), 0) == LoneAfter(c, h, req, 1)
  {
  }

  lemma LoneRead(c: Case, h: Header, req: Request, n: nat)
    requires 1 <= n < 5
    ensures Step(LoneAfter(c, h, req, n), 0) == LoneAfter(c, h, req, n + 1)
  {
  }

  lemma LoneLock(c: Case, h: Header, req: Request)
    ensures Step(LoneAfter(c, h, req, 5), 0) == LoneAfter(c, h, req, 6)
  {
  }

  lemma LoneCheck(c: Case, h: Header, req: Request)
    ensures Step(LoneAfter(c, h, req, 6), 0) == LoneAfter(c, h, req, 7)
  {
  }

  /** The gates let the PATCH through and its patch gives a document. */
  predicate LetsThrough(c: Case, h: Header, req: Request) {
    && c.row.state != Closed && Matches(h, c.row.version) && PathsAllowed(req.ops, c.row.state)
    && req.edit(Snapshot(c)).Some?
  }

  lemma LoneRefusalIsOver(c: Case, h: Header, req: Request)
    requires !LetsThrough(c, h, req)
    ensures LoneAfter(c, h, req, 8) == LoneAfter(c, h, req, 7) && LoneAfter(c, h, req, 7).clients[0].phase.Finished?
    ensures LoneAfter(c, h, req, 7).clients[0].job.Edit? && |LoneAfter(c, h, req, 7).clients| == 1
  {
  }

  lemma FinishedStays(w: World)
    requires |w.clients| == 1 && w.clients[0].job.Edit? && w.clients[0].phase.Finished?
    ensures Step(w, 0) == w
  {
  }

  lemma LoneCommit(c: Case, h: Header, req: Request)
    ensures Step(LoneAfter(c, h, req, 7), 0) == LoneAfter(c, h, req, 8)
  {
    if LetsThrough(c, h, req) {
      var w, doc := Lone(c, Edit(h, req)), req.edit(Snapshot(c)).value;
      CheckedCommits(w, doc, c.row.version);
      CommitFromChecked(w, doc, c.row.version, Committed(c, req, doc));
    } else {
      LoneRefusalIsOver(c, h, req);
      FinishedStays(LoneAfter(c, h, req, 7));
    }
  }

  lemma CheckedCommits(w: World, doc: Doc, readAt: nat)
    requires |w.clients| == 1 && w.clients[0].job.Edit?
    ensures var checked := To(w, 0, Checked(doc, readAt)).(lock := Some(0));
            Step(checked, 0) == Commits(checked, 0, Committed(w.stored, w.clients[0].job.req, doc))
  {
  }

  lemma CommitFromChecked(w: World, doc: Doc, readAt: nat, r: Result<Case, Refusal>)
    requires |w.clients| == 1
    ensures Commits(To(w, 0, Checked(doc, readAt)).(lock := Some(0)), 0, r) == Commits(w, 0, r)
  {
  }

  // ----- an approval and a binder on their own -----

  /** An approval takes the lock, applies its intent, and answers for it. */
  lemma LoneApproval(c: Case, intent: Intent)
    ensures var end := Step(Step(Lone(c, Decide(intent)), 0), 0);
            && end.lock == None
            && end.stored == (match Applied(c, intent) case Ok(after) => after case Err(_) => c)
            && end.clients == [Client(Decide(intent),
                                      Finished(match Applied(c, intent)
                                               case Ok(_) => Success
                                               case Err(e) => Refused(e)),
                                      None)]
  {
  }

  /**
   Under the lock a PATCH is refused as stale exactly when its header no longer matches the
   stored version; it keeps the lock otherwise, and nothing is written yet.
   */
  lemma LockedCheckAnswersExactly(w: World, i: nat)
    requires i < |w.clients| && w.clients[i].job.Edit? && w.clients[i].phase.Locked?
    ensures var next := Step(w, i);
            && (next.clients[i].phase == Finished(Refused(Stale))
                <==> !Matches(w.clients[i].job.header, w.stored.row.version))
            && (next.clients[i].phase.Finished? ==> next.lock == None)
            && (!next.clients[i].phase.Finished? ==>
                  next.lock == w.lock
                  && next.clients[i].phase == Checked(w.clients[i].phase.doc, w.clients[i].phase.readAt))
            && next.stored == w.stored
  {
  }

  /** While another client holds the lock an approval waits. */
  lemma ApprovalWaits(w: World, i: nat)
    requires i < |w.clients| && w.clients[i].job.Decide? && w.clients[i].phase.Start?
    ensures Step(w, i) == w <==> w.lock.Some?
  {
  }

  /**
   A binder reads the row and the evidence and goes on as a PATCH of what it planned on them,
   under the version of that row; it ends there when the case is closed or there is nothing to do.
   */
  lemma LonePlan(c: Case, plan: (Row, seq<Evidence>) -> Option<Request>)
    ensures var end := Step(Step(Lone(c, ReadThenPatch(plan)), 0), 0);
            && end.stored == c && end.lock == None && |end.clients| == 1
            && (if c.row.state == Closed then end.clients[0].phase == Finished(Refused(NotFound))
                else match plan(c.row, c.evidence)
                  case None => end.clients[0].phase == Finished(NothingToWrite)
                  case Some(req) =>
                    && end.clients[0].job == Edit(Tokens([Version(c.row.version)]), req)
                    && end.clients[0].phase == Start && end.clients[0].planned == Some(Plan(c.row, c.evidence, plan)))
  {
  }
}
