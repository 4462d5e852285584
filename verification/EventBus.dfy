/**
 The event-bus connection of one process (case_events/bus.py): any number of publishing
 threads, one lock, one connect at a time done outside the lock, a retry window, and a check
 for a fork. A connect is an action that succeeds or fails; the loop and the broker are foreign.
 */
module EventBus {
  import opened Common

  const CONNECT_RETRY_SECONDS := 30.0

  /** The fields of `_Bus` the lifecycle reads: `connected` stands for the loop, thread and client. */
  datatype Fields = Fields(connected: bool, pid: Option<nat>, lastFailure: real, starting: bool)

  const NEW_BUS := Fields(false, None, 0.0, false)

  datatype Verdict = Connected | Refuse | Connect

  /** `_reset_locked`: the failure time survives it. */
  function Reset(f: Fields): Fields {
    Fields(false, None, f.lastFailure, false)
  }

  function AfterForkCheck(f: Fields, own: nat): Fields {
    if f.pid.Some? && f.pid.value != own then Reset(f) else f
  }

  /** The first critical section of `_ensure_started`. */
  function Entry(f: Fields, own: nat, now: real): (Fields, Verdict) {
    var g := AfterForkCheck(f, own);
    if g.connected then (g, Connected)
    else if g.starting then (g, Refuse)
    else if now - g.lastFailure < CONNECT_RETRY_SECONDS then (g, Refuse)
    else (g.(starting := true), Connect)
  }

  function Failed(f: Fields, now: real): Fields {
    f.(lastFailure := now, starting := false)
  }

  function Succeeded(f: Fields, own: nat): Fields {
    Fields(true, Some(own), 0.0, false)
  }

  /** `_ensure_started` on a single thread: `connects` says how a connect would end, at `later`. */
  function Ensured(f: Fields, own: nat, now: real, connects: bool, later: real): (Fields, bool) {
    var (g, verdict) := Entry(f, own, now);
    match verdict
    case Connected => (g, true)
    case Refuse => (g, false)
    case Connect => if connects then (Succeeded(g, own), true) else (Failed(g, later), false)
  }

  // ----- the object as the code updates it -----

  class Bus {
    var connected: bool
    var pid: Option<nat>
    var lastFailure: real
    var starting: bool

    function Value(): Fields
      reads this
    {
      Fields(connected, pid, lastFailure, starting)
    }

    constructor ()
      ensures Value() == NEW_BUS
    {
      connected, pid, lastFailure, starting := false, None, 0.0, false;
    }

    method ResetLocked()
      modifies this
      ensures Value() == Reset(old(Value()))
    {
      connected := false;
      pid := None;
      starting := false;
    }

    /** Under the lock: connected already, someone is connecting, too soon, or go ahead. */
    method Enter(own: nat, now: real) returns (verdict: Verdict)
      modifies this
      ensures (Value(), verdict) == Entry(old(Value()), own, now)
    {
      if pid.Some? && pid.value != own {
        ResetLocked();
      }
      if connected {
        return Connected;
      }
      if starting {
        return Refuse;
      }
      if now - lastFailure < CONNECT_RETRY_SECONDS {
        return Refuse;
      }
      starting := true;
      return Connect;
    }

    method RecordFailure(now: real)
      modifies this
      ensures Value() == Failed(old(Value()), now)
    {
      lastFailure := now;
      starting := false;
    }

    method RecordSuccess(own: nat)
      modifies this
      ensures Value() == Succeeded(old(Value()), own)
    {
      connected := true;
      pid := Some(own);
      lastFailure := 0.0;
      starting := false;
    }

    /** `_ensure_started` with no other thread about. */
    method EnsureStarted(own: nat, now: real, connects: bool, later: real) returns (started: bool)
      modifies this
      ensures (Value(), started) == Ensured(old(Value()), own, now, connects, later)
    {
      var verdict := Enter(own, now);
      match verdict {
        case Connected => return true;
        case Refuse => return false;
        case Connect =>
          if !connects {
            RecordFailure(later);
            return false;
          }
          RecordSuccess(own);
          return true;
      }
    }

    /** `publish`: `handed` is whether the loop took the message; a raise counts as not. */
    method Publish(enabled: bool, own: nat, now: real, connects: bool, later: real, handed: bool)
      returns (sent: bool)
      modifies this
      ensures sent <==> enabled && Ensured(old(Value()), own, now, connects, later).1 && handed
      ensures !enabled ==> Value() == old(Value())
    {
      if !enabled {
        return false;
      }
      var started := EnsureStarted(own, now, connects, later);
      if !started {
        return false;
      }
      return handed;
    }
  }

  /**
   What one publish finds, for any fields a process can have: it is answered True exactly when
   this process holds the connection, or makes one; it tries to exactly when no start of its own
   is under way and the last failure is half a minute old. A start inherited with a pid is
   forgotten, and nothing else changes.
   */
  lemma EnsuredExactly(f: Fields, own: nat, now: real, connects: bool, later: real)
    requires (f.connected <==> f.pid.Some?) && (f.connected ==> !f.starting)
    ensures var (after, sent) := Ensured(f, own, now, connects, later);
            var tries := f.pid != Some(own) && !f.starting && now - f.lastFailure >= 30.0;
            && (sent <==> f.pid == Some(own) || (tries && connects))
            && after == if f.pid == Some(own) then f
                        else if tries && connects then Fields(true, Some(own), 0.0, false)
                        else if tries then Fields(false, None, later, false)
                        else Fields(false, None, f.lastFailure, f.starting)
  {
  }

  // ----- threads of one process -----

  datatype Thread =
    | Idle
    /** Waiting for the lock of the first section, then inside it. */
    | Waiting | Inside
    /** Connecting without the lock; then waiting for it, or inside, to record how that ended. */
    | Connecting | Lost | LostInside | Got | GotInside
    | Handing
    | Done(sent: bool)

  /** `failures`: when the connects of this process failed; written, never read. */
  datatype Process = Process(
    own: nat,
    now: real,
    fields: Fields,
    lock: Option<nat>,
    threads: seq<Thread>,
    failures: seq<real>)

  datatype Move =
    | Tick(elapsed: real)
    | Call(t: nat)
    | Acquire(t: nat)
    | Leave(t: nat)
    | ConnectEnds(t: nat, ok: bool)
    | Hand(t: nat, ok: bool)

  predicate HoldsLock(t: Thread) {
    t.Inside? || t.LostInside? || t.GotInside?
  }

  /** The thread has begun a connect it has not yet recorded the end of. */
  predicate OwnsConnect(t: Thread) {
    t.Connecting? || t.Lost? || t.LostInside? || t.Got? || t.GotInside?
  }

  function To(p: Process, t: nat, next: Thread): Process
    requires t < |p.threads|
  {
    p.(threads := p.threads[t := next])
  }

  /** The end of a critical section: its effect on the fields, and the lock given up. */
  function Left(p: Process, t: nat): Process
    requires t < |p.threads| && p.lock == Some(t)
  {
    var q := p.(lock := None);
    match p.threads[t]
    case Inside =>
      var (fields, verdict) := Entry(p.fields, p.own, p.now);
      To(q.(fields := fields), t,
         match verdict case Connected => Handing case Refuse => Done(false) case Connect => Connecting)
    case LostInside => To(q.(fields := Failed(p.fields, p.now)), t, Done(false))
    case GotInside => To(q.(fields := Succeeded(p.fields, p.own)), t, Handing)
    case _ => p
  }

  function Step(p: Process, m: Move): Process {
    match m
    case Tick(elapsed) => if elapsed >= 0.0 then p.(now := p.now + elapsed) else p
    case Call(t) => if t < |p.threads| && (p.threads[t].Idle? || p.threads[t].Done?) then To(p, t, Waiting) else p
    case Acquire(t) =>
      if t >= |p.threads| || p.lock.Some? then p
      else (match p.threads[t]
        case Waiting => To(p, t, Inside).(lock := Some(t))
        case Lost => To(p, t, LostInside).(lock := Some(t))
        case Got => To(p, t, GotInside).(lock := Some(t))
        case _ => p)
    case Leave(t) => if t < |p.threads| && p.lock == Some(t) then Left(p, t) else p
    case ConnectEnds(t, ok) =>
      if t >= |p.threads| || !p.threads[t].Connecting? then p
      else if ok then To(p, t, Got)
      else To(p, t, Lost).(failures := p.failures + [p.now])
    case Hand(t, ok) => if t < |p.threads| && p.threads[t].Handing? then To(p, t, Done(ok)) else p
  }

  function Play(p: Process, moves: seq<Move>): Process {
    if moves == [] then p else Step(Play(p, moves[..|moves| - 1]), moves[|moves| - 1])
  }

  /** A process before its first publish. */
  function Fresh(own: nat, now: real, threads: nat): Process {
    Process(own, now, NEW_BUS, None, seq(threads, _ => Idle), [])
  }

  // ----- the invariant -----

  predicate FieldsOk(p: Process) {
    && (p.fields.connected <==> p.fields.pid.Some?)
    && (p.fields.connected ==> !p.fields.starting)
    && 0.0 <= p.now && p.fields.lastFailure <= p.now
  }

  predicate ThreadsOk(p: Process) {
    && (forall t | 0 <= t < |p.threads| :: HoldsLock(p.threads[t]) <==> p.lock == Some(t))
    && (p.lock.Some? ==> p.lock.value < |p.threads|)
    && (forall t | 0 <= t < |p.threads| && OwnsConnect(p.threads[t]) :: p.fields.starting)
    && (forall t, u | 0 <= t < u < |p.threads| :: !OwnsConnect(p.threads[t]) || !OwnsConnect(p.threads[u]))
    && (forall t | 0 <= t < |p.threads| && p.threads[t].Handing? :: p.fields.pid == Some(p.own))
    && (p.fields.starting ==> exists t :: 0 <= t < |p.threads| && OwnsConnect(p.threads[t]))
  }

  /** While this process holds no connection and starts none, its last failure bounds them all. */
  predicate FailuresOk(p: Process) {
    && (forall i | 0 <= i < |p.failures| :: p.failures[i] <= p.now)
    && (p.fields.pid != Some(p.own) && !p.fields.starting ==>
          forall i | 0 <= i < |p.failures| :: p.failures[i] <= p.fields.lastFailure)
    && (p.fields.pid.Some? && p.fields.pid != Some(p.own) ==> p.failures == [])
  }

  predicate Inv(p: Process) {
    FieldsOk(p) && ThreadsOk(p) && FailuresOk(p)
  }

  /** How many threads are at the broker: none, or one. */
  predicate AtMostOneConnect(p: Process) {
    forall t, u | 0 <= t < u < |p.threads| :: !p.threads[t].Connecting? || !p.threads[u].Connecting?
  }

  /** If this step starts a connect: none is in flight, none is held, none failed in the window. */
  predicate StartsProperly(before: Process, after: Process) {
    forall t | 0 <= t < |before.threads| == |after.threads| ::
      after.threads[t].Connecting? && !before.threads[t].Connecting? ==>
        && (forall u | 0 <= u < |before.threads| :: !OwnsConnect(before.threads[u]))
        && before.fields.pid != Some(before.own)
        && (forall i | 0 <= i < |before.failures| ::
              before.now - before.failures[i] >= CONNECT_RETRY_SECONDS)
  }

  /** A move that neither takes nor gives up the lock or a connect. */
  lemma MoveKeeps(p: Process, t: nat, next: Thread)
    requires Inv(p) && t < |p.threads|
    requires HoldsLock(next) == HoldsLock(p.threads[t]) && OwnsConnect(next) == OwnsConnect(p.threads[t])
    requires next.Handing? ==> p.fields.pid == Some(p.own)
    requires !next.Connecting?
    ensures Inv(To(p, t, next)) && StartsProperly(p, To(p, t, next))
  {
    var q := To(p, t, next);
    if p.fields.starting {
      var u :| 0 <= u < |p.threads| && OwnsConnect(p.threads[u]);
      assert OwnsConnect(q.threads[u]);
    }
  }

  lemma AcquireKeeps(p: Process, t: nat, next: Thread)
    requires Inv(p) && t < |p.threads| && p.lock == None && !p.threads[t].Handing?
    requires HoldsLock(next) && OwnsConnect(next) == OwnsConnect(p.threads[t])
    ensures Inv(To(p, t, next).(lock := Some(t))) && StartsProperly(p, To(p, t, next).(lock := Some(t)))
  {
    var q := To(p, t, next).(lock := Some(t));
    if p.fields.starting {
      var u :| 0 <= u < |p.threads| && OwnsConnect(p.threads[u]);
      assert OwnsConnect(q.threads[u]);
    }
  }

  lemma ConnectEndKeeps(p: Process, t: nat, ok: bool)
    requires Inv(p) && t < |p.threads| && p.threads[t].Connecting?
    ensures Inv(Step(p, ConnectEnds(t, ok))) && StartsProperly(p, Step(p, ConnectEnds(t, ok)))
  {
    assert OwnsConnect(p.threads[t]);
    MoveKeeps(p, t, if ok then Got else Lost);
  }

  /** Leaving the first section: nothing begun, or the one connect. */
  lemma EntryKeeps(p: Process, t: nat)
    requires Inv(p) && t < |p.threads| && p.lock == Some(t) && p.threads[t].Inside?
    ensures Inv(Left(p, t)) && StartsProperly(p, Left(p, t))
  {
    var q := Left(p, t);
    assert forall u | 0 <= u < |p.threads| && u != t :: q.threads[u] == p.threads[u];
    if q.threads[t].Connecting? {
      assert OwnsConnect(q.threads[t]);
    } else if q.fields.starting {
      var u :| 0 <= u < |p.threads| && OwnsConnect(p.threads[u]);
      assert OwnsConnect(q.threads[u]);
    }
  }

  /** Recording the end of the one connect. */
  lemma RecordKeeps(p: Process, t: nat)
    requires Inv(p) && t < |p.threads| && p.lock == Some(t)
    requires p.threads[t].LostInside? || p.threads[t].GotInside?
    ensures Inv(Left(p, t)) && StartsProperly(p, Left(p, t))
  {
    var q := Left(p, t);
    assert OwnsConnect(p.threads[t]);
    assert forall u | 0 <= u < |p.threads| && u != t :: q.threads[u] == p.threads[u];
  }

  lemma TickKeeps(p: Process, elapsed: real)
    requires Inv(p)
    ensures Inv(Step(p, Tick(elapsed))) && StartsProperly(p, Step(p, Tick(elapsed)))
  {
  }

  lemma StepKeeps(p: Process, m: Move)
    requires Inv(p)
    ensures Inv(Step(p, m)) && StartsProperly(p, Step(p, m))
  {
    match m
    case Tick(elapsed) => TickKeeps(p, elapsed);
    case Call(t) =>
      if t < |p.threads| && (p.threads[t].Idle? || p.threads[t].Done?) {
        MoveKeeps(p, t, Waiting);
      }
    case Acquire(t) =>
      if t < |p.threads| && p.lock == None && Step(p, m) != p {
        AcquireKeeps(p, t, Step(p, m).threads[t]);
      }
    case Leave(t) =>
      if t < |p.threads| && p.lock == Some(t) {
        assert HoldsLock(p.threads[t]);
        if p.threads[t].Inside? {
          EntryKeeps(p, t);
        } else {
          RecordKeeps(p, t);
        }
      }
    case ConnectEnds(t, ok) =>
      if t < |p.threads| && p.threads[t].Connecting? {
        ConnectEndKeeps(p, t, ok);
      }
    case Hand(t, ok) =>
      if t < |p.threads| && p.threads[t].Handing? {
        MoveKeeps(p, t, Done(ok));
      }
  }

  /**
   For any number of threads and any interleaving without a close: at most one connect is in
   flight, and none starts while another is, while a connection is held, or within the retry
   window after a failure.
   */
  lemma {:induction false} ConnectsAreExclusive(p: Process, moves: seq<Move>)
    requires Inv(p)
    ensures Inv(Play(p, moves)) && AtMostOneConnect(Play(p, moves))
    ensures forall k | 0 <= k < |moves| :: StartsProperly(Play(p, moves[..k]), Play(p, moves[..k + 1]))
  {
    if moves != [] {
      var n := |moves| - 1;
      var front := moves[..n];
      ConnectsAreExclusive(p, front);
      StepKeeps(Play(p, front), moves[n]);
      assert moves[..n + 1] == moves;
      forall k | 0 <= k < |moves|
        ensures StartsProperly(Play(p, moves[..k]), Play(p, moves[..k + 1]))
      {
        if k < n {
          assert front[..k] == moves[..k] && front[..k + 1] == moves[..k + 1];
        }
      }
    }
  }

  lemma FreshIsSound(own: nat, now: real, threads: nat)
    requires now >= 0.0
    ensures Inv(Fresh(own, now, threads))
  {
  }

  /**
   A publish never waits for a connect: the lock is never held across one, so its holder can
   leave at once; and a thread that enters while one is in flight leaves with False.
   */
  lemma LosersReturnAtOnce(p: Process, t: nat)
    requires Inv(p) && t < |p.threads| && p.lock == Some(t)
    ensures !p.threads[t].Connecting? && Step(p, Leave(t)).lock == None
    ensures p.threads[t].Inside? && (exists u :: 0 <= u < |p.threads| && OwnsConnect(p.threads[u]))
            ==> Step(p, Leave(t)).threads[t] == Done(false) && Step(p, Leave(t)).fields == p.fields
  {
    assert HoldsLock(p.threads[t]);
  }

  /**
   How a thread leaves the first section: to hand its message over exactly when this process
   holds the connection, and then the fields stay; to connect exactly when no start is under
   way and the window is over; with False otherwise.
   */
  lemma FirstSectionExactly(p: Process, t: nat)
    requires Inv(p) && t < |p.threads| && p.lock == Some(t) && p.threads[t].Inside?
    ensures var next := Step(p, Leave(t));
            var mayTry := !p.fields.starting && p.now - p.fields.lastFailure >= 30.0;
            && next.lock == None && next.failures == p.failures
            && (forall u | 0 <= u < |p.threads| && u != t :: next.threads[u] == p.threads[u])
            && next.threads[t] == (if p.fields.pid == Some(p.own) then Handing
                                   else if mayTry then Connecting else Done(false))
            && (next.threads[t] == Handing ==> next.fields == p.fields)
            && (next.threads[t] == Connecting ==>
                  next.fields == Fields(false, None, p.fields.lastFailure, true))
            && (next.threads[t] == Done(false) ==>
                  next.fields == Fields(false, None, p.fields.lastFailure, p.fields.starting))
  {
  }

  /** How the one connect is recorded: held by this process and handed over, or failed and answered False. */
  lemma SecondSectionExactly(p: Process, t: nat)
    requires Inv(p) && t < |p.threads| && p.lock == Some(t) && !p.threads[t].Inside?
    ensures var next := Step(p, Leave(t));
            && next.lock == None
            && (p.threads[t] == GotInside ==>
                  next.threads[t] == Handing && next.fields == Fields(true, Some(p.own), 0.0, false))
            && (p.threads[t] == LostInside ==>
                  next.threads[t] == Done(false) && next.fields == p.fields.(lastFailure := p.now, starting := false))
            && (p.threads[t] == GotInside || p.threads[t] == LostInside)
  {
    assert HoldsLock(p.threads[t]);
  }

  /** A connect that fails is on record from that moment; its end frees no lock and writes no field yet. */
  lemma ConnectEndsExactly(p: Process, t: nat, ok: bool)
    requires t < |p.threads| && p.threads[t] == Connecting
    ensures var next := Step(p, ConnectEnds(t, ok));
            && next.threads == p.threads[t := if ok then Got else Lost]
            && next.failures == p.failures + (if ok then [] else [p.now])
            && next.fields == p.fields && next.lock == p.lock && next.now == p.now
  {
  }

  // ----- a publish that nothing interrupts -----

  /** The moves of one whole publish of thread t: `ok` ends the connect it may make, `taken` the hand-over. */
  function Publishing(t: nat, ok: bool, taken: bool): seq<Move> {
    [Call(t)] + [Acquire(t)] + [Leave(t)] + [ConnectEnds(t, ok)] + [Acquire(t)] + [Leave(t)] + [Hand(t, taken)]
  }

  /** The first section of a lone publish, entered and left. */
  function Entered(p: Process, t: nat): Process {
    Step(Step(Step(p, Call(t)), Acquire(t)), Leave(t))
  }

  function Finished(q: Process, t: nat, ok: bool, taken: bool): Process {
    Step(Step(Step(Step(q, ConnectEnds(t, ok)), Acquire(t)), Leave(t)), Hand(t, taken))
  }

  lemma PublishingInSteps(p: Process, t: nat, ok: bool, taken: bool)
    ensures Play(p, Publishing(t, ok, taken)) == Finished(Entered(p, t), t, ok, taken)
  {
    var called: seq<Move> := [Call(t)];
    assert [] + called == called;
    var entered := called + [Acquire(t)] + [Leave(t)];
    var ended := entered + [ConnectEnds(t, ok)] + [Acquire(t)] + [Leave(t)];
    PlaySnoc(p, [], Call(t));
    PlaySnoc(p, called, Acquire(t));
    PlaySnoc(p, called + [Acquire(t)], Leave(t));
    PlaySnoc(p, entered, ConnectEnds(t, ok));
    PlaySnoc(p, entered + [ConnectEnds(t, ok)], Acquire(t));
    PlaySnoc(p, entered + [ConnectEnds(t, ok)] + [Acquire(t)], Leave(t));
    PlaySnoc(p, ended, Hand(t, taken));
  }

  lemma EnteredAlone(p: Process, t: nat)
    requires p.lock == None && t < |p.threads| && p.threads[t] == Idle
    ensures var (fields, verdict) := Entry(p.fields, p.own, p.now);
            Entered(p, t) == To(p, t, match verdict
                                      case Connected => Handing
                                      case Refuse => Done(false)
                                      case Connect => Connecting).(fields := fields)
  {
    var inside := To(p, t, Inside).(lock := Some(t));
    assert Step(Step(p, Call(t)), Acquire(t)) == inside;
  }

  lemma FinishedAlone(q: Process, t: nat, ok: bool, taken: bool)
    requires q.lock == None && t < |q.threads|
    ensures q.threads[t] == Handing ==> Finished(q, t, ok, taken) == To(q, t, Done(taken))
    ensures q.threads[t] == Done(false) ==> Finished(q, t, ok, taken) == q
  {
  }

  lemma ConnectAlone(q: Process, t: nat, ok: bool, taken: bool)
    requires q.lock == None && t < |q.threads| && q.threads[t] == Connecting
    ensures var end := Finished(q, t, ok, taken);
            && end.threads == q.threads[t := Done(ok && taken)] && end.lock == None
            && end.fields == if ok then Succeeded(q.fields, q.own) else Failed(q.fields, q.now)
  {
    var ended := Step(q, ConnectEnds(t, ok));
    assert ended.threads == q.threads[t := if ok then Got else Lost] && ended.fields == q.fields;
    var inside := Step(ended, Acquire(t));
    assert inside.threads == q.threads[t := if ok then GotInside else LostInside] && inside.lock == Some(t);
    var left := Step(inside, Leave(t));
    assert left.threads == q.threads[t := if ok then Handing else Done(false)];
  }

  /** Its steps with nothing between them are the publish of a process with one thread. */
  lemma UninterruptedPublish(p: Process, t: nat, ok: bool, taken: bool)
    requires p.lock == None && t < |p.threads| && p.threads[t] == Idle
    ensures var end, (fields, started) :=
              Play(p, Publishing(t, ok, taken)), Ensured(p.fields, p.own, p.now, ok, p.now);
            end.fields == fields && end.threads == p.threads[t := Done(started && taken)] && end.lock == None
  {
    PublishingInSteps(p, t, ok, taken);
    EnteredAlone(p, t);
    var entered := Entered(p, t);
    if entered.threads[t] == Connecting {
      ConnectAlone(entered, t, ok, taken);
    } else {
      FinishedAlone(entered, t, ok, taken);
    }
  }

  // ----- a fork -----

  /** The child has the memory of its parent, the lock included, and none of its other threads. */
  function Forked(p: Process, child: nat, threads: nat): Process {
    Process(child, p.now, p.fields, if p.lock.Some? then Some(threads) else None,
            seq(threads, _ => Idle), [])
  }

  ghost predicate CanConnect(p: Process) {
    exists moves :: Play(p, moves).fields.pid == Some(p.own)
  }

  /** A lock no thread of the process will give up: nothing is ever entered. */
  predicate Locked(p: Process) {
    && p.lock == Some(|p.threads|) && p.fields.pid != Some(p.own)
    && forall t | 0 <= t < |p.threads| :: p.threads[t].Idle? || p.threads[t].Waiting?
  }

  /** A start in progress that no thread of the process is performing. */
  predicate Abandoned(p: Process) {
    && !p.fields.connected && p.fields.starting && p.fields.pid == None
    && forall t | 0 <= t < |p.threads| ::
         p.threads[t].Idle? || p.threads[t].Waiting? || p.threads[t].Inside? || p.threads[t] == Done(false)
  }

  lemma {:induction false} StuckForever(p: Process, moves: seq<Move>)
    requires Locked(p) || Abandoned(p)
    ensures Locked(Play(p, moves)) || Abandoned(Play(p, moves))
    ensures Play(p, moves).own == p.own
    ensures Play(p, moves).fields == p.fields
  {
    if moves != [] {
      StuckForever(p, moves[..|moves| - 1]);
    }
  }

  lemma PlaySnoc(p: Process, moves: seq<Move>, m: Move)
    ensures Play(p, moves + [m]) == Step(Play(p, moves), m)
  {
    assert (moves + [m])[..|moves|] == moves;
  }

  /** Once the window is over, a lone call connects. */
  lemma LoneCallConnects(p: Process)
    requires FieldsOk(p) && !p.fields.starting && p.lock == None && p.fields.pid != Some(p.own)
    requires |p.threads| > 0 && p.threads[0].Idle?
    ensures CanConnect(p)
  {
    var later := p.(now := p.now + CONNECT_RETRY_SECONDS);
    var g := AfterForkCheck(p.fields, p.own);
    var m1: seq<Move> := [] + [Tick(CONNECT_RETRY_SECONDS)];
    PlaySnoc(p, [], Tick(CONNECT_RETRY_SECONDS));
    PlaySnoc(p, m1, Call(0));
    PlaySnoc(p, m1 + [Call(0)], Acquire(0));
    var m3 := m1 + [Call(0)] + [Acquire(0)];
    assert Play(p, m3) == To(later, 0, Inside).(lock := Some(0));
    PlaySnoc(p, m3, Leave(0));
    assert Play(p, m3 + [Leave(0)]) == To(later, 0, Connecting).(fields := g.(starting := true));
    PlaySnoc(p, m3 + [Leave(0)], ConnectEnds(0, true));
    var m5 := m3 + [Leave(0)] + [ConnectEnds(0, true)];
    PlaySnoc(p, m5, Acquire(0));
    PlaySnoc(p, m5 + [Acquire(0)], Leave(0));
    assert Play(p, m5 + [Acquire(0)] + [Leave(0)]).fields == Succeeded(g, p.own);
  }

  /**
   A forked child can ever connect exactly when, at the fork, no thread was inside a critical
   section and no connect had been begun whose end was not yet recorded. The pid check does
   not help otherwise: the pid is only recorded with a success.
   */
  lemma ForkedChildConnectsExactlyWhen(p: Process, child: nat, threads: nat)
    requires Inv(p) && threads > 0 && child != p.own && p.fields.pid != Some(child)
    ensures CanConnect(Forked(p, child, threads)) <==> p.lock == None && !p.fields.starting
    ensures p.lock == None && !p.fields.starting ==> Inv(Forked(p, child, threads))
  {
    var c := Forked(p, child, threads);
    if p.lock == None && !p.fields.starting {
      LoneCallConnects(c);
    } else {
      forall moves
        ensures Play(c, moves).fields.pid != Some(child)
      {
        StuckForever(c, moves);
      }
    }
  }

  /** A child forked during the first connect of its parent never connects. */
  lemma ForkDuringConnectIsStuck(p: Process, child: nat, threads: nat, t: nat)
    requires Inv(p) && threads > 0 && child != p.own && p.fields.pid != Some(child)
    requires t < |p.threads| && p.threads[t].Connecting?
    ensures p.fields.pid == None && !CanConnect(Forked(p, child, threads))
  {
    assert OwnsConnect(p.threads[t]);
    ForkedChildConnectsExactlyWhen(p, child, threads);
  }
}
