/** The bridge firmware update: the transaction of components/asic/bzm_bridge_update.c over any
    operations, and the production worker with its hooks, leases and maintenance mode
    (components/asic/bzm_bridge.c) among concurrent callers. */
module UpdateRun {
  import opened Esp

  datatype Event = Prepare(err: Err) | Flash(err: Err) | Restore(err: Err) | Query(err: Err)

  /** The operations of one update. Their answers are anyone's guess. */
  class Ops {
    ghost var trace: seq<Event>

    constructor ()
      ensures trace == []
    {
      trace := [];
    }

    method DoPrepare() returns (err: Err)
      modifies this
      ensures trace == old(trace) + [Prepare(err)]
    {
      err := *;
      trace := trace + [Prepare(err)];
    }

    method DoFlash() returns (err: Err)
      modifies this
      ensures trace == old(trace) + [Flash(err)]
    {
      err := *;
      trace := trace + [Flash(err)];
    }

    method DoRestore() returns (err: Err)
      modifies this
      ensures trace == old(trace) + [Restore(err)]
    {
      err := *;
      trace := trace + [Restore(err)];
    }

    method DoQuery() returns (err: Err)
      modifies this
      ensures trace == old(trace) + [Query(err)]
    {
      err := *;
      trace := trace + [Query(err)];
    }
  }

  /** A finished update, read off its trace. */
  predicate Accounts(t: seq<Event>, err: Err, versionKnown: bool) {
    || (|t| == 1 && t[0] == Prepare(err) && err != Ok && !versionKnown)
    || (|t| == 3 && t[0] == Prepare(Ok) && t[1].Flash? && t[2].Restore? && !versionKnown
        && err != Ok && err == if t[1].err != Ok then t[1].err else t[2].err)
    || (|t| == 4 && t[0] == Prepare(Ok) && t[1] == Flash(Ok) && t[2] == Restore(Ok) && t[3].Query?
        && (versionKnown <==> t[3].err == Ok) && err == if t[3].err == NotSupported then Ok else t[3].err)
  }

  /** The transaction after the image has been validated. */
  method Run(ops: Ops) returns (err: Err, versionKnown: bool)
    requires ops.trace == []
    modifies ops
    ensures Accounts(ops.trace, err, versionKnown)
  {
    versionKnown := false;
    err := ops.DoPrepare();
    if err != Ok {
      return;
    }
    err := ops.DoFlash();
    var restoreErr := ops.DoRestore();
    if err == Ok {
      err := restoreErr;
    }
    if err != Ok {
      return;
    }
    var queryErr := ops.DoQuery();
    if queryErr == Ok {
      versionKnown := true;
    } else if queryErr != NotSupported {
      err := queryErr;
    }
  }

  /** A successful prepare is followed by exactly one restore, whatever else fails; a failed one by none. */
  lemma OneRestorePerPrepare(t: seq<Event>, err: Err, versionKnown: bool)
    requires Accounts(t, err, versionKnown)
    ensures t[0] == Prepare(Ok) <==> exists i :: 0 <= i < |t| && t[i].Restore?
    ensures forall i, j :: 0 <= i < |t| && 0 <= j < |t| && t[i].Restore? && t[j].Restore? ==> i == j
    ensures forall i :: 0 <= i < |t| && t[i].Restore? ==> i == 2 && t[1].Flash?
  {
  }

  /** Success means that preparing, flashing and restoring all succeeded. */
  lemma SuccessMeansAll(t: seq<Event>, err: Err, versionKnown: bool)
    requires Accounts(t, err, versionKnown)
    ensures err == Ok <==> |t| == 4 && t[3].err in {Ok, NotSupported}
    ensures err == Ok ==> t[0] == Prepare(Ok) && t[1] == Flash(Ok) && t[2] == Restore(Ok)
  {
  }
}

module UpdateWorkers {
  import opened Options
  import FlashPlan

  datatype Status = Idle | Preparing | Erasing | Programming | Verifying | Resetting | Querying | Complete | Failed

  function Rank(s: Status): nat {
    match s
    case Idle => 0 case Preparing => 1 case Erasing => 2 case Programming => 3 case Verifying => 4
    case Resetting => 5 case Querying => 6 case Complete => 7 case Failed => 8
  }

  /** The status published for a phase the flash procedure reports. */
  function StatusOf(phase: FlashPlan.Phase): Status {
    match phase
    case Preparing => Preparing
    case Erasing => Erasing
    case Programming => Programming
    case Verifying => Verifying
    case Resetting => Resetting
  }

  datatype Reply = Unsupported | NoReply | Info(matches: bool)

  /** Where a worker is. `pair` is the maintenance hook pair whose acquire granted it the lease. */
  datatype Phase =
    | Claimed                                     // running is set, the task not yet created
    | Created
    | HasHooks(hooks: Option<nat>)
    | Leased(pair: nat)
    | Refused(pair: nat)                          // maintenance mode was not to be had
    | Flashing(pair: nat, reports: seq<FlashPlan.Report>, done: nat)  // the first `done` are published
    | Flashed(pair: nat, ok: bool)
    | Reopening(pair: nat, ok: bool)              // out of maintenance, bridge to be set up again
    | Settling(pair: nat, ok: bool)               // set up, its first two commands not yet answered
    | Reopened(pair: nat, ok: bool)
    | Releasing(pair: nat, hooks: Option<nat>, ok: bool)
    | Restored(ok: bool)
    | Asking
    | Answered
    | Failing
    | Finished(complete: bool)

  datatype Worker = Worker(phase: Phase, manifest: bool, verified: bool, reply: Reply)

  datatype Event = Acquire(w: nat, pair: nat) | Prepared(w: nat) | Release(w: nat, pair: nat) | RestoreDone(w: nat)

  /** What all callers share, each part under its lock. `opening` counts callers of the bridge's set-up
      that have set it up and not yet had its first commands answered. */
  datatype Shared = Shared(running: bool, hooks: Option<nat>, maintenance: bool, initialized: bool, status: Status,
                           opening: nat)

  datatype State = State(shared: Shared, workers: seq<Worker>, log: seq<Event>)

  /** How a step may turn out: whether a call succeeds, what a flash about to run will report, and what the
      bridge replies. */
  datatype Choice = Choice(ok: bool, reports: seq<FlashPlan.Report>, reply: Reply)

  datatype Action =
    | SetHooks(pair: nat)
    | Start(manifest: bool)
    | Step(w: nat, choice: Choice)
    | BridgeOpen(ok: bool)
    | BridgeSettle(ok: bool)
    | Transact

  /** What one step of a worker does: to itself, to what is shared, and to the log. */
  datatype Effect = Effect(worker: Worker, shared: Shared, notes: seq<Event>)

  /** The worker's last critical section: publish the result and stop running. */
  function Finish(me: Worker, sh: Shared, complete: bool): Effect {
    Effect(me.(phase := Finished(complete)), sh.(running := false, status := if complete then Complete else Failed), [])
  }

  /** The identity check after a good run: a manifested image must now be the one that answers. */
  predicate Accepts(reply: Reply, manifest: bool) {
    reply != NoReply && (manifest ==> reply == Info(true))
  }

  predicate IsFlashStatus(s: Status) {
    s == Preparing || s == Erasing || s == Programming || s == Verifying || s == Resetting
  }

  /** The steps up to maintenance mode. A flash about to run reports only progress, in order. */
  function AdvanceEarly(w: nat, me: Worker, sh: Shared, c: Choice): Option<Effect>
    requires IsEarly(me.phase)
  {
    match me.phase
    case Claimed => Some(if c.ok then Effect(me.(phase := Created), sh, []) else Finish(me, sh, false))
    case Created => Some(Effect(me.(phase := HasHooks(sh.hooks)), sh.(status := Preparing), []))
    case HasHooks(hooks) =>
      Some(if hooks.None? || !c.ok then Effect(me.(phase := Failing), sh, [])
           else Effect(me.(phase := Leased(hooks.value)), sh, [Acquire(w, hooks.value)]))
    case Leased(pair) =>
      if sh.maintenance then Some(Effect(me.(phase := Refused(pair)), sh, []))
      else if !FlashPlan.Progresses(c.reports) then None
      else Some(Effect(me.(phase := Flashing(pair, c.reports, 0)), sh.(maintenance := true, initialized := false),
                       [Prepared(w)]))
    case Refused(pair) => Some(Effect(me.(phase := Failing), sh, [Release(w, pair)]))
  }

  /** The flash, and the way out of maintenance mode. Reports are published one by one as they come. */
  function AdvanceFlash(me: Worker, sh: Shared, c: Choice): Effect
    requires IsFlash(me.phase)
  {
    match me.phase
    case Flashing(pair, reports, done) =>
      if done < |reports|
      then Effect(me.(phase := Flashing(pair, reports, done + 1)), sh.(status := StatusOf(reports[done].phase)), [])
      else Effect(me.(phase := Flashed(pair, c.ok), verified := c.ok), sh, [])
    case Flashed(pair, ok) => Effect(me.(phase := Reopening(pair, ok)), sh.(maintenance := false), [])
    case Reopening(pair, ok) =>
      if sh.maintenance || (!sh.initialized && !c.ok) then Effect(me.(phase := Reopened(pair, false)), sh, [])
      else if sh.initialized then Effect(me.(phase := Reopened(pair, ok)), sh, [])
      else Effect(me.(phase := Settling(pair, ok)), sh.(initialized := true), [])
    case Settling(pair, ok) =>
      if c.ok then Effect(me.(phase := Reopened(pair, ok)), sh, [])
      else Effect(me.(phase := Reopened(pair, false)), sh.(initialized := false), [])
    case Reopened(pair, ok) => Effect(me.(phase := Releasing(pair, sh.hooks, ok)), sh, [])
  }

  /** Giving the lease back, asking for the new identity, and the end. */
  function AdvanceLate(w: nat, me: Worker, sh: Shared, c: Choice): Option<Effect>
    requires !IsEarly(me.phase) && !IsFlash(me.phase)
  {
    match me.phase
    case Releasing(pair, hooks, ok) =>
      Some(if hooks.None? then Effect(me.(phase := Restored(false)), sh, [RestoreDone(w)])
           else Effect(me.(phase := Restored(ok && c.ok)), sh, [Release(w, hooks.value), RestoreDone(w)]))
    case Restored(ok) =>
      Some(if ok then Effect(me.(phase := Asking), sh.(status := Querying), [])
           else Effect(me.(phase := Failing), sh, []))
    case Asking => Some(Effect(me.(phase := Answered, reply := c.reply), sh, []))
    case Answered => Some(Finish(me, sh, Accepts(me.reply, me.manifest)))
    case Failing => Some(Finish(me, sh, false))
    case Finished(_) => None
  }

  predicate IsEarly(phase: Phase) {
    phase.Claimed? || phase.Created? || phase.HasHooks? || phase.Leased? || phase.Refused?
  }

  predicate IsFlash(phase: Phase) {
    phase.Flashing? || phase.Flashed? || phase.Reopening? || phase.Settling? || phase.Reopened?
  }

  /** One atomic step of worker `w`. */
  function Advance(w: nat, me: Worker, sh: Shared, c: Choice): Option<Effect> {
    if IsEarly(me.phase) then AdvanceEarly(w, me, sh, c)
    else if IsFlash(me.phase) then Some(AdvanceFlash(me, sh, c))
    else AdvanceLate(w, me, sh, c)
  }

  function Apply(s: State, w: nat, e: Effect): State
    requires w < |s.workers|
  {
    State(e.shared, s.workers[w := e.worker], s.log + e.notes)
  }

  function Next(s: State, a: Action): Option<State> {
    match a
    case SetHooks(pair) => Some(if s.shared.running then s else s.(shared := s.shared.(hooks := Some(pair))))
    case Start(manifest) =>
      Some(if s.shared.running then s
           else s.(shared := s.shared.(running := true, status := Preparing),
                   workers := s.workers + [Worker(Claimed, manifest, false, NoReply)]))
    case Step(w, choice) =>
      if w >= |s.workers| then None
      else
        (match Advance(w, s.workers[w], s.shared, choice)
         case None => None
         case Some(e) => Some(Apply(s, w, e)))
    case BridgeOpen(ok) =>
      Some(if s.shared.maintenance || s.shared.initialized || !ok then s
           else s.(shared := s.shared.(initialized := true, opening := s.shared.opening + 1)))
    case BridgeSettle(ok) =>
      if s.shared.opening == 0 then None
      else Some(s.(shared := s.shared.(initialized := s.shared.initialized && ok, opening := s.shared.opening - 1)))
    case Transact => if s.shared.initialized && !s.shared.maintenance then Some(s) else None
  }

  // ----- The invariant -----

  /** What one worker has logged, in order. */
  function Trail(log: seq<Event>, w: nat): seq<Event> {
    if log == [] then []
    else Trail(log[..|log| - 1], w) + (if log[|log| - 1].w == w then [log[|log| - 1]] else [])
  }

  predicate IsClosed(trail: seq<Event>, w: nat) {
    || trail == []
    || (|trail| == 2 && trail[0].Acquire? && trail == [Acquire(w, trail[0].pair), Release(w, trail[0].pair)])
    || IsRestored(trail, w)
  }

  predicate IsRestored(trail: seq<Event>, w: nat) {
    |trail| == 4 && trail[0].Acquire? &&
        trail == [Acquire(w, trail[0].pair), Prepared(w), Release(w, trail[0].pair), RestoreDone(w)]
  }

  /** What a worker has logged by the time it is in a phase. */
  predicate TrailFits(trail: seq<Event>, w: nat, phase: Phase) {
    match phase
    case Claimed => trail == []
    case Created => trail == []
    case HasHooks(_) => trail == []
    case Leased(pair) => trail == [Acquire(w, pair)]
    case Refused(pair) => trail == [Acquire(w, pair)]
    case Flashing(pair, _, _) => trail == [Acquire(w, pair), Prepared(w)]
    case Flashed(pair, _) => trail == [Acquire(w, pair), Prepared(w)]
    case Reopening(pair, _) => trail == [Acquire(w, pair), Prepared(w)]
    case Settling(pair, _) => trail == [Acquire(w, pair), Prepared(w)]
    case Reopened(pair, _) => trail == [Acquire(w, pair), Prepared(w)]
    case Releasing(pair, _, _) => trail == [Acquire(w, pair), Prepared(w)]
    case Restored(_) => IsRestored(trail, w)
    case Asking => IsRestored(trail, w)
    case Answered => IsRestored(trail, w)
    case Failing => IsClosed(trail, w)
    case Finished(_) => IsClosed(trail, w)
  }

  /** The hook pair a worker's lease came from, while it has to give it back. */
  function PairOf(phase: Phase): Option<nat> {
    match phase
    case Leased(pair) => Some(pair)
    case Refused(pair) => Some(pair)
    case Flashing(pair, _, _) => Some(pair)
    case Flashed(pair, _) => Some(pair)
    case Reopening(pair, _) => Some(pair)
    case Settling(pair, _) => Some(pair)
    case Reopened(pair, _) => Some(pair)
    case Releasing(pair, _, _) => Some(pair)
    case _ => None
  }

  /** The hooks a worker goes by are the installed ones. */
  predicate HooksFit(s: Shared, phase: Phase) {
    && (PairOf(phase).Some? ==> s.hooks == PairOf(phase))
    && (phase.HasHooks? ==> s.hooks == phase.hooks)
    && (phase.Releasing? ==> s.hooks == phase.hooks)
  }

  /** A worker that may still complete has a verified flash behind it. */
  predicate ResultFits(w: Worker) {
    match w.phase
    case Flashed(_, ok) => ok ==> w.verified
    case Reopening(_, ok) => ok ==> w.verified
    case Settling(_, ok) => ok ==> w.verified
    case Reopened(_, ok) => ok ==> w.verified
    case Releasing(_, _, ok) => ok ==> w.verified
    case Restored(ok) => ok ==> w.verified
    case Asking => w.verified
    case Answered => w.verified
    case Finished(complete) => complete ==> w.verified && Accepts(w.reply, w.manifest)
    case _ => true
  }

  /** The published status is never ahead of the worker. */
  predicate StatusFits(s: Shared, phase: Phase) {
    match phase
    case Claimed => s.status == Preparing
    case Created => s.status == Preparing
    case HasHooks(_) => s.status == Preparing
    case Leased(_) => s.status == Preparing
    case Refused(_) => s.status == Preparing
    case Flashing(_, reports, done) =>
      && FlashPlan.Progresses(reports) && done <= |reports|
      && s.status == if done == 0 then Preparing else StatusOf(reports[done - 1].phase)
    case Asking => s.status == Querying
    case Answered => s.status == Querying
    case Failing => Rank(s.status) <= Rank(Querying)
    case Finished(complete) => true
    case _ => IsFlashStatus(s.status)
  }

  predicate InMaintenance(phase: Phase) {
    phase.Flashing? || phase.Flashed?
  }

  /** What is shared fits the phase of the worker at work. */
  predicate SharedFits(sh: Shared, phase: Phase) {
    && (sh.running <==> !phase.Finished?)
    && (sh.running ==> HooksFit(sh, phase) && StatusFits(sh, phase))
    && (sh.maintenance <==> InMaintenance(phase))
    && (sh.initialized ==> !sh.maintenance)
    && (sh.status == Complete ==> phase == Finished(true))
  }

  /** Only the newest worker can be at work, and its results and trail fit its phase. */
  ghost predicate Inv(s: State) {
    && (forall w :: 0 <= w < |s.workers| ==>
          && (!s.workers[w].phase.Finished? ==> w == |s.workers| - 1)
          && TrailFits(Trail(s.log, w), w, s.workers[w].phase) && ResultFits(s.workers[w]))
    && SharedFits(s.shared, if s.workers == [] then Finished(false) else s.workers[|s.workers| - 1].phase)
    && (forall i :: 0 <= i < |s.log| ==> s.log[i].w < |s.workers|)
    && (forall i, j :: 0 <= i < j < |s.log| ==> s.log[i].w <= s.log[j].w)
  }

  // ----- Every step keeps it -----

  /** What a step keeps: everything fits the worker's new phase, at most two notes are added, all its own,
      and the published status does not go back. */
  predicate Fits(w: nat, trail: seq<Event>, sh: Shared, e: Effect) {
    && SharedFits(e.shared, e.worker.phase) && ResultFits(e.worker)
    && TrailFits(trail + e.notes, w, e.worker.phase)
    && |e.notes| <= 2 && (forall i :: 0 <= i < |e.notes| ==> e.notes[i].w == w)
    && Rank(sh.status) <= Rank(e.shared.status) && e.shared.hooks == sh.hooks
  }

  lemma EarlyTrail(w: nat, me: Worker, sh: Shared, c: Choice, trail: seq<Event>)
    requires IsEarly(me.phase) && AdvanceEarly(w, me, sh, c).Some?
    requires HooksFit(sh, me.phase) && TrailFits(trail, w, me.phase)
    ensures var e := AdvanceEarly(w, me, sh, c).value;
            && TrailFits(trail + e.notes, w, e.worker.phase)
            && |e.notes| <= 2 && (forall i :: 0 <= i < |e.notes| ==> e.notes[i].w == w)
  {
    hide FlashPlan.Progresses;
    var e := AdvanceEarly(w, me, sh, c).value;
    if e.notes == [] {
      assert trail + e.notes == trail;
    }
  }

  lemma EarlyShared(w: nat, me: Worker, sh: Shared, c: Choice)
    requires IsEarly(me.phase) && AdvanceEarly(w, me, sh, c).Some?
    requires SharedFits(sh, me.phase) && ResultFits(me)
    ensures var e := AdvanceEarly(w, me, sh, c).value;
            && SharedFits(e.shared, e.worker.phase) && ResultFits(e.worker)
            && Rank(sh.status) <= Rank(e.shared.status) && e.shared.hooks == sh.hooks
  {
    hide FlashPlan.Progresses;
  }

  lemma EarlyIsNotFinished(phase: Phase)
    requires IsEarly(phase)
    ensures !phase.Finished?
  {
  }

  lemma LateIsNotFinished(w: nat, me: Worker, sh: Shared, c: Choice)
    requires !IsEarly(me.phase) && !IsFlash(me.phase) && AdvanceLate(w, me, sh, c).Some?
    ensures !me.phase.Finished?
  {
  }

  lemma EarlyFits(w: nat, me: Worker, sh: Shared, c: Choice, trail: seq<Event>)
    requires IsEarly(me.phase) && AdvanceEarly(w, me, sh, c).Some?
    requires SharedFits(sh, me.phase) && ResultFits(me) && TrailFits(trail, w, me.phase)
    ensures Fits(w, trail, sh, AdvanceEarly(w, me, sh, c).value)
  {
    hide AdvanceEarly, ResultFits, TrailFits, IsEarly, IsFlash, Rank, HooksFit, StatusFits, InMaintenance;
    assert !me.phase.Finished? by { EarlyIsNotFinished(me.phase); }
    EarlyTrail(w, me, sh, c, trail);
    EarlyShared(w, me, sh, c);
  }

  /** Successive reports of a flash are in order, so the statuses published for them are. */
  lemma ReportedInOrder(reports: seq<FlashPlan.Report>, done: nat)
    requires FlashPlan.Progresses(reports) && done < |reports|
    ensures Rank(Preparing) <= Rank(StatusOf(reports[done].phase)) <= Rank(Resetting)
    ensures done > 0 ==> Rank(StatusOf(reports[done - 1].phase)) <= Rank(StatusOf(reports[done].phase))
  {
    if done > 0 {
      FlashPlan.NeverGoesBack(reports, done - 1, done);
    }
  }

  lemma FlashStatusAdvances(me: Worker, sh: Shared, c: Choice)
    requires IsFlash(me.phase) && StatusFits(sh, me.phase)
    ensures var e := AdvanceFlash(me, sh, c);
            StatusFits(e.shared, e.worker.phase) && Rank(sh.status) <= Rank(e.shared.status)
  {
    hide FlashPlan.Progresses;
    if me.phase.Flashing? && me.phase.done < |me.phase.reports| {
      ReportedInOrder(me.phase.reports, me.phase.done);
    }
  }

  lemma FlashFits(w: nat, me: Worker, sh: Shared, c: Choice, trail: seq<Event>)
    requires IsFlash(me.phase)
    requires SharedFits(sh, me.phase) && ResultFits(me) && TrailFits(trail, w, me.phase)
    ensures Fits(w, trail, sh, AdvanceFlash(me, sh, c))
  {
    hide StatusFits, Rank, Accepts;
    FlashStatusAdvances(me, sh, c);
    FlashIsNotTheEnd(me, sh, c);
    assert trail + AdvanceFlash(me, sh, c).notes == trail;
  }

  lemma FlashIsNotTheEnd(me: Worker, sh: Shared, c: Choice)
    requires IsFlash(me.phase)
    ensures var e := AdvanceFlash(me, sh, c);
            !e.worker.phase.Finished? && (sh.status != Complete ==> e.shared.status != Complete)
  {
  }

  lemma LateTrail(w: nat, me: Worker, sh: Shared, c: Choice, trail: seq<Event>)
    requires !IsEarly(me.phase) && !IsFlash(me.phase) && AdvanceLate(w, me, sh, c).Some?
    requires HooksFit(sh, me.phase) && TrailFits(trail, w, me.phase)
    ensures var e := AdvanceLate(w, me, sh, c).value;
            && TrailFits(trail + e.notes, w, e.worker.phase)
            && |e.notes| <= 2 && (forall i :: 0 <= i < |e.notes| ==> e.notes[i].w == w)
  {
    hide Accepts;
    var e := AdvanceLate(w, me, sh, c).value;
    if e.notes == [] {
      assert trail + e.notes == trail;
    }
  }

  lemma LateShared(w: nat, me: Worker, sh: Shared, c: Choice)
    requires !IsEarly(me.phase) && !IsFlash(me.phase) && AdvanceLate(w, me, sh, c).Some?
    requires SharedFits(sh, me.phase) && ResultFits(me)
    ensures var e := AdvanceLate(w, me, sh, c).value;
            && SharedFits(e.shared, e.worker.phase) && ResultFits(e.worker)
            && Rank(sh.status) <= Rank(e.shared.status) && e.shared.hooks == sh.hooks
  {
    hide Accepts;
  }

  lemma LateFits(w: nat, me: Worker, sh: Shared, c: Choice, trail: seq<Event>)
    requires !IsEarly(me.phase) && !IsFlash(me.phase) && AdvanceLate(w, me, sh, c).Some?
    requires SharedFits(sh, me.phase) && ResultFits(me) && TrailFits(trail, w, me.phase)
    ensures Fits(w, trail, sh, AdvanceLate(w, me, sh, c).value)
  {
    hide AdvanceLate, ResultFits, TrailFits, IsEarly, IsFlash, Rank, HooksFit, StatusFits, InMaintenance;
    assert !me.phase.Finished? by { LateIsNotFinished(w, me, sh, c); }
    LateTrail(w, me, sh, c, trail);
    LateShared(w, me, sh, c);
  }

  lemma AdvanceFits(w: nat, me: Worker, sh: Shared, c: Choice, trail: seq<Event>)
    requires Advance(w, me, sh, c).Some? && SharedFits(sh, me.phase) && ResultFits(me) && TrailFits(trail, w, me.phase)
    ensures Fits(w, trail, sh, Advance(w, me, sh, c).value)
  {
    hide AdvanceEarly, AdvanceFlash, AdvanceLate, IsEarly, IsFlash, Fits, SharedFits, ResultFits, TrailFits;
    if IsEarly(me.phase) {
      EarlyFits(w, me, sh, c, trail);
    } else if IsFlash(me.phase) {
      FlashFits(w, me, sh, c, trail);
    } else {
      LateFits(w, me, sh, c, trail);
    }
  }

  lemma TrailNotes(log: seq<Event>, e: Event, w: nat)
    ensures Trail(log + [e], w) == Trail(log, w) + (if e.w == w then [e] else [])
  {
    assert (log + [e])[..|log|] == log;
  }

  lemma TrailOfMore(log: seq<Event>, notes: seq<Event>, w: nat, v: nat)
    requires |notes| <= 2 && forall i :: 0 <= i < |notes| ==> notes[i].w == w
    ensures Trail(log + notes, v) == if v == w then Trail(log, v) + notes else Trail(log, v)
  {
    hide Trail;
    if |notes| == 0 {
      assert log + notes == log;
    } else {
      TrailNotes(log, notes[0], v);
      if |notes| == 1 {
        assert notes == [notes[0]];
      } else {
        TrailNotes(log + [notes[0]], notes[1], v);
        assert log + notes == log + [notes[0]] + [notes[1]];
      }
    }
  }

  lemma WorkerStepKeepsInv(s: State, w: nat, c: Choice)
    requires Inv(s) && w < |s.workers| && Advance(w, s.workers[w], s.shared, c).Some?
    ensures Inv(Apply(s, w, Advance(w, s.workers[w], s.shared, c).value))
  {
    hide Trail, TrailFits, ResultFits, SharedFits, Advance;
    assert !s.workers[w].phase.Finished? by { FinishedIsDone(w, s.workers[w], s.shared, c); }
    AdvanceFits(w, s.workers[w], s.shared, c, Trail(s.log, w));
    var notes := Advance(w, s.workers[w], s.shared, c).value.notes;
    forall v: nat
      ensures Trail(s.log + notes, v) == if v == w then Trail(s.log, v) + notes else Trail(s.log, v)
    {
      TrailOfMore(s.log, notes, w, v);
    }
  }

  lemma FinishedIsDone(w: nat, me: Worker, sh: Shared, c: Choice)
    requires Advance(w, me, sh, c).Some?
    ensures !me.phase.Finished?
  {
  }

  lemma OthersKeepFit(sh: Shared, phase: Phase, pair: nat, opening: nat)
    requires SharedFits(sh, phase)
    ensures !sh.maintenance ==> SharedFits(sh.(initialized := true, opening := opening), phase)
    ensures SharedFits(sh.(initialized := false, opening := opening), phase)
    ensures SharedFits(sh.(opening := opening), phase)
    ensures !sh.running ==> SharedFits(sh.(hooks := Some(pair)), phase)
    ensures !sh.running ==> SharedFits(sh.(running := true, status := Preparing), Claimed)
  {
  }

  lemma StepKeepsInv(s: State, a: Action)
    requires Inv(s) && Next(s, a).Some?
    ensures Inv(Next(s, a).value)
  {
    hide Trail, ResultFits, SharedFits, Advance;
    var phase := if s.workers == [] then Finished(false) else s.workers[|s.workers| - 1].phase;
    OthersKeepFit(s.shared, phase, if a.SetHooks? then a.pair else 0,
                  if a.BridgeSettle? && s.shared.opening > 0 then s.shared.opening - 1 else s.shared.opening + 1);
    if a.Step? {
      WorkerStepKeepsInv(s, a.w, a.choice);
    } else if a.Start? && !s.shared.running {
      StartKeepsInv(s, a.manifest);
    }
  }

  lemma StartKeepsInv(s: State, manifest: bool)
    requires Inv(s) && !s.shared.running
    ensures Inv(Next(s, Start(manifest)).value)
  {
    hide Trail;
    NoTrailYet(s.log, |s.workers|);
  }

  lemma {:induction false} NoTrailYet(log: seq<Event>, w: nat)
    requires forall i :: 0 <= i < |log| ==> log[i].w < w
    ensures Trail(log, w) == []
  {
    if log != [] {
      NoTrailYet(log[..|log| - 1], w);
    }
  }

  // ----- All runs -----

  function Run(s: State, actions: seq<Action>): Option<State> {
    if actions == [] then Some(s)
    else
      match Run(s, actions[..|actions| - 1])
      case None => None
      case Some(before) => Next(before, actions[|actions| - 1])
  }

  const START := State(Shared(false, None, false, false, Idle, 0), [], [])

  lemma {:induction false} RunKeepsInv(actions: seq<Action>)
    requires Run(START, actions).Some?
    ensures Inv(Run(START, actions).value)
  {
    hide Next;
    if actions == [] {
      StartIsInv();
    } else {
      hide Inv;
      RunKeepsInv(actions[..|actions| - 1]);
      StepKeepsInv(Run(START, actions[..|actions| - 1]).value, actions[|actions| - 1]);
    }
  }

  lemma StartIsInv()
    ensures Inv(START)
  {
  }

  /** Every lease a worker was granted is given back exactly once, through the hooks that granted it,
      and every prepare is followed by exactly one restore, in every way a worker can finish. */
  lemma LeasesAndPreparesAreClosed(actions: seq<Action>, w: nat)
    requires Run(START, actions).Some?
    requires var s := Run(START, actions).value; w < |s.workers| && s.workers[w].phase.Finished?
    ensures IsClosed(Trail(Run(START, actions).value.log, w), w)
  {
    hide Trail, Run;
    RunKeepsInv(actions);
    var s := Run(START, actions).value;
    assert TrailFits(Trail(s.log, w), w, s.workers[w].phase);
  }

  /** No two workers overlap: only the newest is at work, and nothing another worker does falls between
      two things that one worker does. */
  lemma WorkersDoNotOverlap(actions: seq<Action>, i: nat, j: nat, k: nat)
    requires Run(START, actions).Some?
    ensures var s := Run(START, actions).value;
            && (forall w :: 0 <= w < |s.workers| - 1 ==> s.workers[w].phase.Finished?)
            && (i < j < k < |s.log| && s.log[i].w == s.log[k].w ==> s.log[j].w == s.log[i].w)
  {
    hide Trail, Run;
    RunKeepsInv(actions);
  }

  /** "Complete" is published only for a verified flash and, with a manifest, a matching identity. */
  lemma CompleteMeansVerified(actions: seq<Action>)
    requires Run(START, actions).Some? && Run(START, actions).value.shared.status == Complete
    ensures var s := Run(START, actions).value;
            s.workers != [] &&
              var last := s.workers[|s.workers| - 1];
              && last.phase == Finished(true) && last.verified && last.reply != NoReply
              && (last.manifest ==> last.reply == Info(true))
  {
    hide Trail, Run;
    RunKeepsInv(actions);
  }

  // ----- An update fails for a cause, and for nothing else -----

  /** A step that dooms a worker's update: no task, no hooks, a lease, flash, reopening, settling or release
      refused or failed, maintenance mode held by someone else, or no fitting reply. */
  predicate Spoils(me: Worker, sh: Shared, c: Choice) {
    match me.phase
    case Claimed => !c.ok
    case HasHooks(hooks) => hooks == None || !c.ok
    case Leased(_) => sh.maintenance
    case Flashing(_, reports, done) => done >= |reports| && !c.ok
    case Reopening(_, _) => sh.maintenance || (!sh.initialized && !c.ok)
    case Settling(_, _) => !c.ok
    case Releasing(_, hooks, _) => hooks == None || !c.ok
    case Asking => c.reply == NoReply || (me.manifest && c.reply != Info(true))
    case _ => false
  }

  predicate IsCause(s: State, a: Action, w: nat) {
    a.Step? && a.w == w && w < |s.workers| && Spoils(s.workers[w], s.shared, a.choice)
  }

  /** Some action of a run doomed a worker's update. */
  predicate IsCaused(actions: seq<Action>, w: nat) {
    actions != [] &&
      var before := Run(START, actions[..|actions| - 1]);
      IsCaused(actions[..|actions| - 1], w) || (before.Some? && IsCause(before.value, actions[|actions| - 1], w))
  }

  predicate IsDoomed(me: Worker) {
    match me.phase
    case Refused(_) => true
    case Flashed(_, ok) => !ok
    case Reopening(_, ok) => !ok
    case Settling(_, ok) => !ok
    case Reopened(_, ok) => !ok
    case Releasing(_, _, ok) => !ok
    case Restored(ok) => !ok
    case Answered => !Accepts(me.reply, me.manifest)
    case Failing => true
    case Finished(complete) => !complete
    case _ => false
  }

  lemma AdvanceDooms(w: nat, me: Worker, sh: Shared, c: Choice)
    requires Advance(w, me, sh, c).Some?
    ensures IsDoomed(Advance(w, me, sh, c).value.worker) <==> IsDoomed(me) || Spoils(me, sh, c)
  {
    hide AdvanceEarly, AdvanceFlash, AdvanceLate, IsEarly, IsFlash, IsDoomed, Spoils;
    if IsEarly(me.phase) {
      EarlyDooms(w, me, sh, c);
    } else if IsFlash(me.phase) {
      FlashDooms(me, sh, c);
    } else {
      LateDooms(w, me, sh, c);
    }
  }

  lemma EarlyDooms(w: nat, me: Worker, sh: Shared, c: Choice)
    requires IsEarly(me.phase) && AdvanceEarly(w, me, sh, c).Some?
    ensures IsDoomed(AdvanceEarly(w, me, sh, c).value.worker) <==> IsDoomed(me) || Spoils(me, sh, c)
  {
    hide FlashPlan.Progresses;
  }

  lemma FlashDooms(me: Worker, sh: Shared, c: Choice)
    requires IsFlash(me.phase)
    ensures IsDoomed(AdvanceFlash(me, sh, c).worker) <==> IsDoomed(me) || Spoils(me, sh, c)
  {
    hide StatusOf;
  }

  lemma LateDooms(w: nat, me: Worker, sh: Shared, c: Choice)
    requires !IsEarly(me.phase) && !IsFlash(me.phase) && AdvanceLate(w, me, sh, c).Some?
    ensures IsDoomed(AdvanceLate(w, me, sh, c).value.worker) <==> IsDoomed(me) || Spoils(me, sh, c)
  {
  }

  lemma StepDooms(s: State, a: Action, w: nat)
    requires Next(s, a).Some? && w < |s.workers|
    ensures var s' := Next(s, a).value;
            w < |s'.workers| && (IsDoomed(s'.workers[w]) <==> IsDoomed(s.workers[w]) || IsCause(s, a, w))
  {
    hide Advance, IsDoomed, Spoils;
    if a.Step? {
      AdvanceDooms(a.w, s.workers[a.w], s.shared, a.choice);
    }
  }

  lemma NewWorkerIsNotDoomed(s: State, a: Action)
    requires Next(s, a).Some?
    ensures var s' := Next(s, a).value;
            && |s'.workers| >= |s.workers|
            && forall w :: |s.workers| <= w < |s'.workers| ==> !IsDoomed(s'.workers[w]) && !IsCause(s, a, w)
  {
    hide Advance;
  }

  lemma {:induction false} NotYetCaused(actions: seq<Action>, w: nat)
    requires Run(START, actions).Some? && w >= |Run(START, actions).value.workers|
    ensures !IsCaused(actions, w)
  {
    hide Next, IsDoomed;
    if actions != [] {
      var n := |actions| - 1;
      NewWorkerIsNotDoomed(Run(START, actions[..n]).value, actions[n]);
      NotYetCaused(actions[..n], w);
    }
  }

  lemma {:induction false} DoomedMeansCaused(actions: seq<Action>, w: nat)
    requires Run(START, actions).Some? && w < |Run(START, actions).value.workers|
    ensures IsDoomed(Run(START, actions).value.workers[w]) <==> IsCaused(actions, w)
  {
    hide Next, IsDoomed, IsCause;
    if actions != [] {
      var n := |actions| - 1;
      var before := Run(START, actions[..n]).value;
      NewWorkerIsNotDoomed(before, actions[n]);
      if w < |before.workers| {
        DoomedMeansCaused(actions[..n], w);
        StepDooms(before, actions[n], w);
      } else {
        NotYetCaused(actions[..n], w);
      }
    }
  }

  /** An update that has come to its end is complete if and only if nothing in the run doomed it. */
  lemma CompleteUnlessCaused(actions: seq<Action>, w: nat)
    requires Run(START, actions).Some? && w < |Run(START, actions).value.workers|
    ensures var s := Run(START, actions).value;
            s.workers[w].phase.Finished? ==> (s.workers[w].phase == Finished(true) <==> !IsCaused(actions, w))
  {
    hide Run, IsCaused;
    DoomedMeansCaused(actions, w);
  }

  /** How far a worker has come. */
  function Stage(phase: Phase): nat {
    match phase
    case Claimed => 0 case Created => 1 case HasHooks(_) => 2 case Leased(_) => 3 case Refused(_) => 4
    case Flashing(_, _, _) => 4 case Flashed(_, _) => 5 case Reopening(_, _) => 6 case Settling(_, _) => 7
    case Reopened(_, _) => 8 case Releasing(_, _, _) => 9 case Restored(_) => 10 case Asking => 11
    case Answered => 12 case Failing => 12 case Finished(_) => 13
  }

  /** A worker has come on a stage, or published one more of its flash's reports. */
  predicate ComesOn(before: Phase, after: Phase) {
    || Stage(after) > Stage(before)
    || (before.Flashing? && before.done < |before.reports| && after == before.(done := before.done + 1))
  }

  /** A step of a worker that has not finished: it comes on, and if it finishes it publishes its result. */
  predicate ComesOnWith(me: Worker, e: Effect) {
    && ComesOn(me.phase, e.worker.phase)
    && (e.worker.phase.Finished? ==>
          !e.shared.running && e.shared.status == if e.worker.phase == Finished(true) then Complete else Failed)
  }

  lemma EarlyComesOn(w: nat, me: Worker, sh: Shared, c: Choice)
    requires IsEarly(me.phase) && FlashPlan.Progresses(c.reports)
    ensures AdvanceEarly(w, me, sh, c).Some? && ComesOnWith(me, AdvanceEarly(w, me, sh, c).value)
  {
    hide FlashPlan.Progresses;
  }

  lemma FlashComesOn(me: Worker, sh: Shared, c: Choice)
    requires IsFlash(me.phase)
    ensures ComesOnWith(me, AdvanceFlash(me, sh, c))
  {
    hide StatusOf;
  }

  lemma LateComesOn(w: nat, me: Worker, sh: Shared, c: Choice)
    requires !IsEarly(me.phase) && !IsFlash(me.phase)
    ensures AdvanceLate(w, me, sh, c) == None <==> me.phase.Finished?
    ensures !me.phase.Finished? ==> ComesOnWith(me, AdvanceLate(w, me, sh, c).value)
  {
    hide Accepts;
  }

  /** An update can be started whenever none is running; its worker can step until it has finished, however the
      step turns out, and comes on each time; and its last step publishes the result. */
  lemma WorkersComeToAnEnd(s: State, manifest: bool, w: nat, c: Choice)
    requires w < |s.workers| && FlashPlan.Progresses(c.reports)
    ensures !s.shared.running ==>
              Next(s, Start(manifest)).value.workers == s.workers + [Worker(Claimed, manifest, false, NoReply)]
    ensures s.workers[w].phase.Finished? <==> Next(s, Step(w, c)) == None
    ensures !s.workers[w].phase.Finished? ==>
              var s' := Next(s, Step(w, c)).value;
              && ComesOn(s.workers[w].phase, s'.workers[w].phase)
              && (s'.workers[w].phase.Finished? ==>
                    !s'.shared.running &&
                    s'.shared.status == if s'.workers[w].phase == Finished(true) then Complete else Failed)
  {
    hide AdvanceEarly, AdvanceFlash, AdvanceLate, IsEarly, IsFlash, ComesOn, FlashPlan.Progresses;
    var me := s.workers[w];
    if IsEarly(me.phase) {
      EarlyIsNotFinished(me.phase);
      EarlyComesOn(w, me, s.shared, c);
    } else if IsFlash(me.phase) {
      FlashPhaseIsNotFinished(me.phase);
      FlashComesOn(me, s.shared, c);
    } else {
      LateComesOn(w, me, s.shared, c);
    }
  }

  lemma FlashPhaseIsNotFinished(phase: Phase)
    requires IsFlash(phase)
    ensures !phase.Finished?
  {
  }

  /** While a flash runs, the published status names the phase it last reported. */
  lemma PublishedIsReported(actions: seq<Action>, w: nat)
    requires Run(START, actions).Some? && w < |Run(START, actions).value.workers|
    ensures var s := Run(START, actions).value;
            s.workers[w].phase.Flashing? && s.workers[w].phase.done > 0 ==>
              && 0 < s.workers[w].phase.done <= |s.workers[w].phase.reports|
              && var phase := s.workers[w].phase.reports[s.workers[w].phase.done - 1].phase;
                 && (s.shared.status == Preparing <==> phase == FlashPlan.Preparing)
                 && (s.shared.status == Erasing <==> phase == FlashPlan.Erasing)
                 && (s.shared.status == Programming <==> phase == FlashPlan.Programming)
                 && (s.shared.status == Verifying <==> phase == FlashPlan.Verifying)
                 && (s.shared.status == Resetting <==> phase == FlashPlan.Resetting)
  {
    hide Trail, Run, FlashPlan.Progresses;
    RunKeepsInv(actions);
    WorkersOwnFit(Run(START, actions).value, w);
  }

  /** While the flash is being written no command goes out on the control line, and hooks stay put. */
  lemma MaintenanceKeepsOthersOut(actions: seq<Action>, a: Action)
    requires Run(START, actions).Some?
    ensures var s := Run(START, actions).value;
            && (s.workers != [] && InMaintenance(s.workers[|s.workers| - 1].phase) ==>
                Next(s, Transact) == None && !s.shared.initialized)
            && (s.shared.running && Next(s, a).Some? ==> Next(s, a).value.shared.hooks == s.shared.hooks)
  {
    hide Trail, Run, Advance;
    RunKeepsInv(actions);
    var s := Run(START, actions).value;
    if a.Step? && Next(s, a).Some? {
      FinishedIsDone(a.w, s.workers[a.w], s.shared, a.choice);
      WorkersOwnFit(s, a.w);
      AdvanceFits(a.w, s.workers[a.w], s.shared, a.choice, Trail(s.log, a.w));
    }
  }

  /** A worker that can step is the newest one, so what is shared fits it. */
  lemma WorkersOwnFit(s: State, w: nat)
    requires Inv(s) && w < |s.workers|
    ensures !s.workers[w].phase.Finished? ==> SharedFits(s.shared, s.workers[w].phase)
    ensures ResultFits(s.workers[w]) && TrailFits(Trail(s.log, w), w, s.workers[w].phase)
  {
    hide Trail, SharedFits, ResultFits, TrailFits;
  }

  /** Only the start of a new update takes the published status back. */
  lemma StatusNeverGoesBack(actions: seq<Action>, a: Action)
    requires Run(START, actions).Some? && Next(Run(START, actions).value, a).Some?
    requires a.Start? ==> Run(START, actions).value.shared.running
    ensures var s := Run(START, actions).value;
            Rank(s.shared.status) <= Rank(Next(s, a).value.shared.status)
  {
    hide Trail, Run, Advance, Rank;
    RunKeepsInv(actions);
    var s := Run(START, actions).value;
    if a.Step? {
      FinishedIsDone(a.w, s.workers[a.w], s.shared, a.choice);
      WorkersOwnFit(s, a.w);
      AdvanceFits(a.w, s.workers[a.w], s.shared, a.choice, Trail(s.log, a.w));
    }
  }
}
