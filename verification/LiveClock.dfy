/** The live clock stepper of components/asic/bzm_bringup.c: eight PLL domains, four ASICs by two, walked
    row by row. Domain `d` is PLL `d % 2` of ASIC `d / 2`. */
module PllBus {
  import opened Options
  import opened Frequency

  const DOMAINS := 8
  const PLLS := 2
  const LOCK_ATTEMPTS := 30

  datatype Reg = Feedback | Postdiv | Enable

  /** The two lock bits of an enable register, mask 0x05. */
  predicate Locked(value: nat) {
    value % 2 == 1 && value / 4 % 2 == 1
  }

  /** What a PLL runs on, and what has been read back from it since it was last written to. */
  datatype Pll = Pll(feedback: nat, postdiv: nat, seenFeedback: Option<nat>, seenPostdiv: Option<nat>, seenLock: bool)
  {
    function Disturbed(): Pll {
      Pll(feedback, postdiv, None, None, false)
    }

    function Written(reg: Reg, value: nat): Pll {
      match reg
      case Feedback => Pll(value, postdiv, None, None, false)
      case Postdiv => Pll(feedback, value, None, None, false)
      case Enable => Disturbed()
    }

    function Seen(reg: Reg, value: nat): Pll {
      match reg
      case Feedback => this.(seenFeedback := Some(value))
      case Postdiv => this.(seenPostdiv := Some(value))
      case Enable => this.(seenLock := Locked(value))
    }

    predicate Runs(t: Target) {
      feedback == t.feedback && postdiv == t.postdiv
    }

    /** Both dividers were read back right and the lock was seen, all after the last write. */
    predicate Proven(t: Target) {
      seenFeedback == Some(t.feedback) && seenPostdiv == Some(t.postdiv) && seenLock
    }
  }

  /** The addressed domains: one, or one PLL of every ASIC. */
  datatype Address = One(domain: nat) | Every(pll: nat)
  {
    predicate Covers(d: nat) {
      match this case One(domain) => d == domain case Every(pll) => d % PLLS == pll
    }
  }

  /** What was asked of the bus or the clock, and the answer. */
  datatype Access =
    | Wrote(to: Address, reg: Reg, value: nat, ok: bool)
    | ReadBack(domain: nat, reg: Reg, ok: bool, value: nat)
    | Clock(time: nat)
  {
    predicate Failed() {
      !Clock? && !ok
    }

    /** A domain's divider register was read, and held something else. */
    predicate Misread(d: nat, t: Target) {
      && ReadBack? && ok && domain == d
      && ((reg == Feedback && value != t.feedback) || (reg == Postdiv && value != t.postdiv))
    }

    /** A domain's enable register was read, and one of the two lock bits was missing. */
    predicate Unlocked(d: nat) {
      ReadBack? && ok && domain == d && reg == Enable && (value % 2 != 1 || value / 4 % 2 != 1)
    }
  }

  /** The register bus. Any access may fail; a failed write may still have been taken, by any of those
      it addressed. */
  class Bus {
    ghost var plls: seq<Pll>
    ghost var log: seq<Access>

    ghost predicate Valid()
      reads this
    {
      |plls| == DOMAINS
    }

    constructor (plls: seq<Pll>)
      requires |plls| == DOMAINS
      ensures Valid() && this.plls == plls && log == []
    {
      this.plls := plls;
      log := [];
    }

    method Write(to: Address, reg: Reg, value: nat) returns (ok: bool)
      requires Valid()
      modifies this
      ensures Valid() && log == old(log) + [Wrote(to, reg, value, ok)]
      ensures forall d :: 0 <= d < DOMAINS ==>
                if !to.Covers(d) then plls[d] == old(plls)[d]
                else plls[d] == old(plls)[d].Written(reg, value) || (!ok && plls[d] == old(plls)[d].Disturbed())
    {
      ok := *;
      ghost var taken: set<nat> := *;
      plls := seq(DOMAINS, d requires 0 <= d < DOMAINS && |plls| == DOMAINS reads this =>
        if !to.Covers(d) then plls[d] else if ok || d in taken then plls[d].Written(reg, value)
            else plls[d].Disturbed());
      log := log + [Wrote(to, reg, value, ok)];
    }

    method Read(domain: nat, reg: Reg) returns (ok: bool, value: nat)
      requires Valid() && domain < DOMAINS
      modifies this
      ensures Valid() && log == old(log) + [ReadBack(domain, reg, ok, value)]
      ensures plls == if ok then old(plls)[domain := old(plls)[domain].Seen(reg, value)] else old(plls)
    {
      ok := *;
      value := *;
      plls := if ok then plls[domain := plls[domain].Seen(reg, value)] else plls;
      log := log + [ReadBack(domain, reg, ok, value)];
    }

    method Time() returns (time: nat)
      requires Valid()
      modifies this`log
      ensures Valid() && log == old(log) + [Clock(time)]
    {
      time := *;
      log := log + [Clock(time)];
    }
  }
}

module LiveClock {
  import opened Options
  import opened Topology
  import opened BringupReport
  import opened Frequency
  import opened PllBus

  const ATTEMPTS := 3

  /** What a good step reports: the last domain, and all of them done. */
  const LAST := Report(Good, NoReason, 0x28, DOMAINS, PLLS - 1)

  function Sum(s: seq<real>): real {
    if s == [] then 0.0 else Sum(s[..|s| - 1]) + s[|s| - 1]
  }

  function Mean(s: seq<real>): real {
    Sum(s) / DOMAINS as real
  }

  /** A frequency the dividers can make exactly. */
  predicate OnGrid(mhz: real) {
    IsValid(Mhz(mhz)) && Resolve(Mhz(mhz)).value.actual == mhz
  }

  predicate Resolvable(target: Float) {
    Resolve(target).Some? && Abs(Resolve(target).value.actual - target.value) < EPSILON
  }

  function Goal(target: Float): Target
    requires target.Mhz?
  {
    Resolve(target).value
  }

  predicate Changed(current: real, target: Float)
    requires target.Mhz?
  {
    Abs(Goal(target).actual - current) >= EPSILON
  }

  /** What one domain's request must satisfy: an ordinary step of at most 25 MHz, or the one initial
      jump that all domains make together from power-on. */
  predicate DomainAcceptable(current: real, target: Float, first: Float, jump: bool) {
    && IsValid(Mhz(current)) && Resolvable(target)
    && (jump ==>
          && Abs(current - POWER_ON) < EPSILON && POWER_ON <= Goal(target).actual <= INITIAL_MAX
          && first.Mhz? && Abs(Goal(first).actual - Goal(target).actual) < EPSILON)
    && (!jump && Changed(current, target) ==> Abs(Goal(target).actual - current) <= RAMP_STEP + EPSILON)
  }

  predicate AllAcceptable(current: seq<real>, targets: seq<Float>, jump: bool)
    requires |current| == DOMAINS && |targets| == DOMAINS
  {
    forall d :: 0 <= d < DOMAINS ==> DomainAcceptable(current[d], targets[d], targets[0], jump)
  }

  /** The initial jump is worth a broadcast: from power-on to a common higher frequency. */
  predicate IsShortcut(jump: bool, targets: seq<Float>)
    requires |targets| == DOMAINS
  {
    jump && targets[0].Mhz? && Goal(targets[0]).actual > POWER_ON
  }

  /** The recorded clocks, and what the hardware runs on. */
  datatype Board = Board(recorded: seq<real>, plls: seq<Pll>)
  {
    predicate Sized() {
      |recorded| == DOMAINS && |plls| == DOMAINS
    }

    predicate AllOnGrid()
      requires Sized()
    {
      forall d :: 0 <= d < DOMAINS ==> OnGrid(recorded[d])
    }

    /** A domain runs on exactly the dividers of its recorded frequency. */
    predicate Agrees(d: nat)
      requires Sized() && d < DOMAINS
    {
      plls[d].Runs(Resolve(Mhz(recorded[d])).value)
    }
  }

  /** What an ordinary walk has done to a domain it has passed. */
  predicate Passed(was: real, pll: Pll, now: real, pll': Pll, target: Float)
    requires target.Mhz?
  {
    && now == Goal(target).actual
    && if Changed(was, target) then pll'.Runs(Goal(target)) && pll'.Proven(Goal(target)) else pll' == pll
  }

  /** An ordinary walk that has come to domain `k`: all before are passed, all after untouched, and at `k`
      the record is as it was, and the hardware too unless the domain was to be changed. */
  predicate StoppedAt(before: Board, after: Board, targets: seq<Float>, k: nat) {
    && before.Sized() && after.Sized() && |targets| == DOMAINS && k <= DOMAINS
    && (forall d :: 0 <= d < DOMAINS ==> targets[d].Mhz?)
    && (forall d :: 0 <= d < k ==>
          Passed(before.recorded[d], before.plls[d], after.recorded[d], after.plls[d], targets[d]))
    && (forall d :: k <= d < DOMAINS ==> after.recorded[d] == before.recorded[d])
    && (forall d :: k <= d < DOMAINS && (d > k || !Changed(before.recorded[d], targets[d])) ==>
          after.plls[d] == before.plls[d])
  }

  /** What a live step may do to a board, given whether it was admitted. */
  predicate StepAllows(before: Board, after: Board, targets: seq<Float>, jump: bool, admitted: bool, report: Report) {
    && before.Sized() && after.Sized() && |targets| == DOMAINS
    && (admitted ==> forall d :: 0 <= d < DOMAINS ==> targets[d].Mhz?)
    && (report.outcome == Blocked <==> !admitted)
    && (report.outcome == Blocked ==> after == before)
    && (report.outcome == Good && IsShortcut(jump, targets) ==>
          forall d :: 0 <= d < DOMAINS ==>
            && after.recorded[d] == Goal(targets[d]).actual
            && after.plls[d].Runs(Goal(targets[d])) && after.plls[d].Proven(Goal(targets[d])))
    && (report.outcome == Good && !IsShortcut(jump, targets) ==> StoppedAt(before, after, targets, DOMAINS))
    && (report.outcome == Bad && IsShortcut(jump, targets) ==> after.recorded == before.recorded)
    && (report.outcome == Bad && !IsShortcut(jump, targets) ==>
          && report.completed < DOMAINS && NamesDomain(report, report.completed)
          && StoppedAt(before, after, targets, report.completed)
          && Changed(before.recorded[report.completed], targets[report.completed]))
  }

  predicate NamesDomain(report: Report, d: nat)
    requires d < DOMAINS
  {
    report.asic == WIRE_IDS[d / PLLS] && report.pll == d % PLLS
  }

  // ----- The grid -----

  lemma GridGap(a: int, b: int)
    ensures Abs(GRID * a as real - GRID * b as real) < EPSILON <==> a == b
  {
  }

  lemma GridPoint(mhz: real)
    ensures Resolve(Mhz(mhz)).Some?
    ensures var t := Resolve(Mhz(mhz)).value;
            && t.feedback >= 0 && t.postdiv == POSTDIV && t.actual == GRID * t.feedback as real && OnGrid(t.actual)
            && Resolve(Mhz(t.actual)).value.feedback == t.feedback
  {
    hide Divider;
    ResolveLandsOnGrid(mhz);
    ResolveOfGrid(Resolve(Mhz(mhz)).value.feedback);
  }

  /** On the grid there is nothing between unchanged and equal. */
  lemma OnGridUnchanged(current: real, target: Float)
    requires OnGrid(current) && target.Mhz?
    ensures !Changed(current, target) <==> Goal(target).actual == current
  {
    hide Divider, Resolve;
    GridPoint(current);
    GridPoint(target.value);
    GridGap(Goal(target).feedback, Resolve(Mhz(current)).value.feedback);
  }

  lemma RunsMeansAgrees(target: Float, pll: Pll)
    requires target.Mhz? && pll.Runs(Goal(target))
    ensures pll.Runs(Resolve(Mhz(Goal(target).actual)).value)
  {
    hide Divider, Resolve;
    GridPoint(target.value);
    GridPoint(Goal(target).actual);
  }

  lemma GoalIsOnGrid(target: Float)
    requires target.Mhz?
    ensures OnGrid(Goal(target).actual) && Goal(target).feedback >= 0 && Goal(target).postdiv >= 0
  {
    hide Divider;
    GridPoint(target.value);
  }

  // ----- When a step may fail -----

  /** A failure for a reason is deserved by the answers since `from`: the last access failed, or the last was a
      divider of the domain read back as something else, or the last thirty were its enable register, never
      locked. */
  predicate Deserved(log: seq<Access>, from: nat, d: nat, t: Target, reason: Reason) {
    && |log| > from
    && match reason
       case Io => log[|log| - 1].Failed()
       case RegisterReadback => log[|log| - 1].Misread(d, t)
       case PllUnlocked => |log| >= from + 30 && forall i :: |log| - 30 <= i < |log| ==> log[i].Unlocked(d)
       case _ => false
  }

  lemma DeservedSooner(log: seq<Access>, from: nat, from': nat, d: nat, t: Target, reason: Reason)
    requires Deserved(log, from, d, t, reason) && from' <= from
    ensures Deserved(log, from', d, t, reason)
  {
  }

  lemma UnlockedOnceMore(log: seq<Access>, d: nat, value: nat, attempt: nat)
    requires attempt < |log| && !Locked(value) && log[|log| - 1] == ReadBack(d, Enable, true, value)
    requires forall i :: |log| - 1 - attempt <= i < |log| - 1 ==> log[i].Unlocked(d)
    ensures forall i :: |log| - 1 - attempt <= i < |log| ==> log[i].Unlocked(d)
  {
  }

  /** What a domain is to run on after a step. */
  function GoalOf(targets: seq<Float>, jump: bool, d: nat): Target
    requires |targets| == DOMAINS && d < DOMAINS && forall i :: 0 <= i < DOMAINS ==> targets[i].Mhz?
  {
    if IsShortcut(jump, targets) then Goal(targets[0]) else Goal(targets[d])
  }

  /** A bad report is deserved by the domain it has come to. */
  predicate Excused(log: seq<Access>, from: nat, targets: seq<Float>, jump: bool, report: Report) {
    report.outcome == Bad ==>
      && |targets| == DOMAINS && (forall i :: 0 <= i < DOMAINS ==> targets[i].Mhz?) && report.completed < DOMAINS
      && Deserved(log, from, report.completed, GoalOf(targets, jump, report.completed), report.reason)
  }

  /** At some point since `from` the answers deserved a failure. */
  ghost predicate Troubled(log: seq<Access>, from: nat, targets: seq<Float>, jump: bool) {
    exists n: nat, report: Report ::
      n <= |log| && report.outcome == Bad && Excused(log[..n], from, targets, jump, report)
  }

  lemma ExcusedSooner(log: seq<Access>, from: nat, from': nat, targets: seq<Float>, jump: bool, report: Report)
    requires Excused(log, from, targets, jump, report) && from' <= from
    ensures Excused(log, from', targets, jump, report)
  {
  }

  lemma TroubleStays(log: seq<Access>, log': seq<Access>, from: nat, targets: seq<Float>, jump: bool)
    requires Troubled(log, from, targets, jump) && log <= log'
    ensures Troubled(log', from, targets, jump)
  {
    hide Excused;
    var n: nat, report: Report :| n <= |log| && report.outcome == Bad && Excused(log[..n], from, targets, jump, report);
    assert log'[..n] == log[..n];
  }

  lemma ExcusedIsTrouble(log: seq<Access>, from: nat, targets: seq<Float>, jump: bool, report: Report)
    requires report.outcome == Bad && Excused(log, from, targets, jump, report)
    ensures Troubled(log, from, targets, jump)
  {
    hide Excused;
    assert log[..|log|] == log;
  }

  // ----- The walk -----

  lemma NotYetStarted(board: Board, targets: seq<Float>)
    requires board.Sized() && |targets| == DOMAINS && forall d :: 0 <= d < DOMAINS ==> targets[d].Mhz?
    ensures StoppedAt(board, board, targets, 0)
  {
  }

  lemma SkipDomain(before: Board, after: Board, targets: seq<Float>, d: nat)
    requires d < DOMAINS && StoppedAt(before, after, targets, d)
    requires OnGrid(after.recorded[d]) && !Changed(after.recorded[d], targets[d])
    ensures StoppedAt(before, after, targets, d + 1)
  {
    hide OnGrid, Changed, Goal;
    OnGridUnchanged(after.recorded[d], targets[d]);
  }

  lemma MoveDomain(before: Board, after: Board, targets: seq<Float>, plls: seq<Pll>, d: nat)
    requires d < DOMAINS && StoppedAt(before, after, targets, d) && |plls| == DOMAINS
    requires forall i :: 0 <= i < DOMAINS && i != d ==> plls[i] == after.plls[i]
    requires Changed(after.recorded[d], targets[d])
    requires plls[d].Runs(Goal(targets[d])) && plls[d].Proven(Goal(targets[d]))
    ensures StoppedAt(before, Board(after.recorded[d := Goal(targets[d]).actual], plls), targets, d + 1)
  {
    hide Pll.Runs, Pll.Proven, Goal, Changed;
  }

  lemma FailedDomain(before: Board, after: Board, targets: seq<Float>, plls: seq<Pll>, d: nat)
    requires d < DOMAINS && StoppedAt(before, after, targets, d) && |plls| == DOMAINS
    requires forall i :: 0 <= i < DOMAINS && i != d ==> plls[i] == after.plls[i]
    requires Changed(after.recorded[d], targets[d])
    ensures StoppedAt(before, Board(after.recorded, plls), targets, d)
  {
    hide Goal, Changed, Pll.Runs, Pll.Proven;
  }

  lemma StoppedIsSized(before: Board, after: Board, targets: seq<Float>, k: nat)
    requires StoppedAt(before, after, targets, k)
    ensures before.Sized() && after.Sized() && |targets| == DOMAINS
    ensures forall i :: 0 <= i < DOMAINS ==> targets[i].Mhz?
    ensures forall i :: k <= i < DOMAINS ==> after.recorded[i] == before.recorded[i]
  {
  }

  /** A walk that stopped has nothing more to change before the place. */
  lemma BeforeStopUnchanged(before: Board, after: Board, targets: seq<Float>, k: nat, d: nat)
    requires StoppedAt(before, after, targets, k) && d < DOMAINS
    ensures d < k ==> !Changed(after.recorded[d], targets[d])
  {
  }

  lemma StoppedIsOnGrid(before: Board, after: Board, targets: seq<Float>, k: nat)
    requires StoppedAt(before, after, targets, k) && before.AllOnGrid()
    ensures after.AllOnGrid()
  {
    hide OnGrid, Goal, Changed;
    forall d | 0 <= d < DOMAINS
      ensures OnGrid(after.recorded[d])
    {
      GoalIsOnGrid(targets[d]);
    }
  }

  /** After an ordinary step a domain other than the reported one runs on its record if and only if it was
      to be changed and was reached, or did so before. A step that leaves a domain alone repairs nothing. */
  lemma AgreementAfterWalk(before: Board, after: Board, targets: seq<Float>, k: nat, d: nat)
    requires StoppedAt(before, after, targets, k) && before.AllOnGrid() && d < DOMAINS && d != k
    ensures after.Agrees(d) <==> (d < k && Changed(before.recorded[d], targets[d])) || before.Agrees(d)
  {
    hide OnGrid, Goal, Changed, Resolve;
    OnGridUnchanged(before.recorded[d], targets[d]);
    if d < k && Changed(before.recorded[d], targets[d]) {
      RunsMeansAgrees(targets[d], after.plls[d]);
    }
  }

  lemma AdmittedIsFinite(current: seq<real>, targets: seq<Float>, jump: bool)
    requires |current| == DOMAINS && |targets| == DOMAINS && AllAcceptable(current, targets, jump)
    ensures forall d :: 0 <= d < DOMAINS ==> targets[d].Mhz?
  {
  }

  /** Domains that jump together jump to the very same dividers. */
  lemma JumpIsCommon(current: seq<real>, targets: seq<Float>)
    requires |current| == DOMAINS && |targets| == DOMAINS && AllAcceptable(current, targets, true)
    ensures forall d :: 0 <= d < DOMAINS ==>
              && targets[d].Mhz? && Goal(targets[d]).actual == Goal(targets[0]).actual
              && Goal(targets[d]).feedback == Goal(targets[0]).feedback
              && Goal(targets[d]).postdiv == Goal(targets[0]).postdiv
  {
    hide Resolve, Divider;
    AdmittedIsFinite(current, targets, true);
    GridPoint(targets[0].value);
    forall d | 0 <= d < DOMAINS
      ensures Goal(targets[d]).feedback == Goal(targets[0]).feedback
      ensures Goal(targets[d]).actual == Goal(targets[0]).actual
      ensures Goal(targets[d]).postdiv == Goal(targets[0]).postdiv
    {
      assert DomainAcceptable(current[d], targets[d], targets[0], true);
      GridPoint(targets[d].value);
      GridGap(Goal(targets[0]).feedback, Goal(targets[d]).feedback);
    }
  }

  lemma ProvenEverywhere(targets: seq<Float>, plls: seq<Pll>)
    requires |targets| == DOMAINS && |plls| == DOMAINS && forall d :: 0 <= d < DOMAINS ==> targets[d].Mhz?
    requires forall d :: 0 <= d < DOMAINS ==> plls[d].Runs(Goal(targets[0])) && plls[d].Proven(Goal(targets[0]))
    requires forall d :: 0 <= d < DOMAINS ==>
               && Goal(targets[d]).feedback == Goal(targets[0]).feedback
               && Goal(targets[d]).postdiv == Goal(targets[0]).postdiv
    ensures forall d :: 0 <= d < DOMAINS ==> plls[d].Runs(Goal(targets[d])) && plls[d].Proven(Goal(targets[d]))
  {
    hide Goal;
  }

  /** What was admitted once is admitted again after part of it has been done. */
  lemma StillAcceptable(before: Board, after: Board, targets: seq<Float>, k: nat, jump: bool)
    requires StoppedAt(before, after, targets, k) && !IsShortcut(jump, targets)
    requires AllAcceptable(before.recorded, targets, jump)
    ensures AllAcceptable(after.recorded, targets, jump)
  {
    hide Pll.Runs, Pll.Proven, Divider;
    forall d | 0 <= d < DOMAINS
      ensures DomainAcceptable(after.recorded[d], targets[d], targets[0], jump)
    {
      assert DomainAcceptable(before.recorded[d], targets[d], targets[0], jump);
      assert DomainAcceptable(before.recorded[0], targets[0], targets[0], jump);
      GridPoint(targets[d].value);
    }
  }

  lemma {:induction false} SumOfEqual(s: seq<real>, x: real)
    requires forall i :: 0 <= i < |s| ==> s[i] == x
    ensures Sum(s) == |s| as real * x
  {
    if s != [] {
      SumOfEqual(s[..|s| - 1], x);
    }
  }

  lemma MeanOfEqual(s: seq<real>, x: real)
    requires |s| == DOMAINS && forall i :: 0 <= i < |s| ==> s[i] == x
    ensures Mean(s) == x
  {
    SumOfEqual(s, x);
  }

  // ----- Runs of steps -----

  /** One step of a run: the board it found, what was asked, whether that was admitted, what was reported. */
  datatype Taken = Taken(before: Board, targets: seq<Float>, jump: bool, admitted: bool, report: Report)

  /** A run of steps from one board to another, whatever each of them met. */
  predicate IsRun(start: Board, run: seq<Taken>, end: Board) {
    if run == [] then start == end
    else
      var last := run[|run| - 1];
      && IsRun(start, run[..|run| - 1], last.before)
      && StepAllows(last.before, end, last.targets, last.jump, last.admitted, last.report)
  }

  /** The domains a run gives reason to doubt: reported by a failed step, or all of them by a failed
      broadcast, and not changed since by a step that got past them. */
  function Doubtful(run: seq<Taken>): set<nat> {
    if run == [] then {}
    else
      var last, doubted := run[|run| - 1], Doubtful(run[..|run| - 1]);
      if !last.before.Sized() || |last.targets| != DOMAINS || last.report.outcome == Blocked then doubted
      else if IsShortcut(last.jump, last.targets) then
        (if last.report.outcome == Good then {} else {0, 1, 2, 3, 4, 5, 6, 7})
      else
        var k := if last.report.outcome == Good then DOMAINS else last.report.completed;
        (set d | d in doubted && !(d < k && d < DOMAINS && last.targets[d].Mhz? &&
                                   Changed(last.before.recorded[d], last.targets[d])))
        + (if k < DOMAINS then {k} else {})
  }

  lemma StepKeepsGrid(before: Board, after: Board, targets: seq<Float>, jump: bool, admitted: bool, report: Report)
    requires StepAllows(before, after, targets, jump, admitted, report) && before.AllOnGrid()
    ensures after.AllOnGrid()
  {
    hide OnGrid, Goal, Changed, StoppedAt, Resolve;
    if report.outcome != Blocked && IsShortcut(jump, targets) && report.outcome == Good {
      forall d | 0 <= d < DOMAINS
        ensures OnGrid(after.recorded[d])
      {
        GoalIsOnGrid(targets[d]);
      }
    } else if report.outcome != Blocked && !IsShortcut(jump, targets) {
      StoppedIsOnGrid(before, after, targets, if report.outcome == Good then DOMAINS else report.completed);
    }
  }

  lemma StepKeepsTrack(start: Taken, after: Board, d: nat)
    requires StepAllows(start.before, after, start.targets, start.jump, start.admitted, start.report)
    requires start.before.AllOnGrid() && d < DOMAINS && start.report.outcome != Blocked
    requires IsShortcut(start.jump, start.targets) ==> start.report.outcome == Good
    requires !IsShortcut(start.jump, start.targets) ==>
               var k := if start.report.outcome == Good then DOMAINS else start.report.completed;
               d != k && (start.before.Agrees(d) || (d < k && Changed(start.before.recorded[d], start.targets[d])))
    ensures after.Agrees(d)
  {
    hide OnGrid, Goal, Changed, Resolve, StoppedAt;
    if IsShortcut(start.jump, start.targets) {
      RunsMeansAgrees(start.targets[d], after.plls[d]);
    } else {
      AgreementAfterWalk(start.before, after, start.targets,
                         if start.report.outcome == Good then DOMAINS else start.report.completed, d);
    }
  }

  /** Over every run of steps from a board in agreement, every domain there is no reason to doubt runs on
      its recorded clock. */
  lemma {:induction false} OnlyDoubtfulDisagree(start: Board, run: seq<Taken>, end: Board, d: nat)
    requires IsRun(start, run, end) && start.Sized() && start.AllOnGrid() && d < DOMAINS
    requires forall i :: 0 <= i < DOMAINS ==> start.Agrees(i)
    ensures end.Sized() && end.AllOnGrid() && (d !in Doubtful(run) ==> end.Agrees(d))
  {
    hide OnGrid, Goal, Changed, Resolve, StoppedAt, StepAllows, Board.AllOnGrid;
    if run != [] {
      var last := run[|run| - 1];
      OnlyDoubtfulDisagree(start, run[..|run| - 1], last.before, d);
      StepIsSized(last, end);
      StepKeepsGrid(last.before, end, last.targets, last.jump, last.admitted, last.report);
      if d !in Doubtful(run) && last.report.outcome != Blocked {
        StepKeepsTrack(last, end, d);
      }
    }
  }

  /** Every domain recorded at the power-on frequency and running on the power-on dividers. */
  predicate AtPowerOn(board: Board) {
    && board.Sized()
    && forall d :: 0 <= d < DOMAINS ==>
         && board.recorded[d] == POWER_ON
         && board.plls[d].feedback == MIN_DIVIDER && board.plls[d].postdiv == POSTDIV
  }

  /** From power-on the record tells the truth about every domain. */
  lemma PowerOnAgrees(board: Board)
    requires AtPowerOn(board)
    ensures board.AllOnGrid() && forall d :: 0 <= d < DOMAINS ==> board.Agrees(d)
  {
    hide Resolve;
    ResolveOfGrid(MIN_DIVIDER);
  }

  /** From power-on, a first step whose first write is taken but reported as failed leaves domain 0 running on
      dividers that are not on record; a second step that asks for what is on record is then good and changes
      nothing. */
  lemma GoodStepKeepsDisagreement()
    ensures exists start: Board, end: Board, run: seq<Taken> ::
              && IsRun(start, run, end) && |run| == 2 && AtPowerOn(start) && run[1].before.Sized()
              && |run[0].targets| == DOMAINS && |run[1].targets| == DOMAINS
              && run[0].admitted && AllAcceptable(start.recorded, run[0].targets, run[0].jump)
              && run[1].admitted && AllAcceptable(run[1].before.recorded, run[1].targets, run[1].jump)
              && run[0].report == Report(Bad, Io, WIRE_IDS[0], 0, 0) && run[1].report == LAST
              && end == run[1].before && !end.Agrees(0) && 0 in Doubtful(run)
  {
    hide Resolve;
    ResolveOfGrid(MIN_DIVIDER);
    ResolveOfGrid(MIN_DIVIDER + STEP_DIVIDERS);
    var pll := Pll(MIN_DIVIDER, POSTDIV, None, None, false);
    var start := Board(seq(DOMAINS, d => POWER_ON), seq(DOMAINS, d => pll));
    var end := start.(plls := start.plls[0 := pll.Written(Feedback, MIN_DIVIDER + STEP_DIVIDERS)]);
    var up, stay := seq(DOMAINS, d => Mhz(POWER_ON + RAMP_STEP)), seq(DOMAINS, d => Mhz(POWER_ON));
    var failed := Taken(start, up, false, true, Report(Bad, Io, WIRE_IDS[0], 0, 0));
    var good := Taken(end, stay, false, true, LAST);
    assert StepAllows(start, end, up, false, true, failed.report);
    assert StepAllows(end, end, stay, false, true, LAST);
    assert IsRun(start, [], start);
    assert [failed][..0] == [] && [failed, good][..1] == [failed];
    assert IsRun(start, [failed], end);
    assert IsRun(start, [failed, good], end);
    assert 0 in Doubtful([failed]);
    assert 0 in Doubtful([failed, good]);
  }

  lemma StepIsSized(last: Taken, end: Board)
    requires StepAllows(last.before, end, last.targets, last.jump, last.admitted, last.report)
    ensures last.before.Sized() && end.Sized() && |last.targets| == DOMAINS
    ensures last.report.outcome == Blocked ==> end == last.before
    ensures last.report.outcome != Blocked ==> forall d :: 0 <= d < DOMAINS ==> last.targets[d].Mhz?
  {
  }

  /** A failure that is worth another attempt. */
  predicate IsRetried(report: Report) {
    report.outcome == Bad && report.reason in {Io, RegisterReadback}
  }

  /** What a step's attempts have reported: the last one what it reports, and any earlier one a failure worth
      another attempt. */
  predicate Attempted(before: seq<Report>, tried: seq<Report>, attempts: nat, report: Report) {
    && 0 < attempts && |tried| == |before| + attempts && before <= tried && tried[|tried| - 1] == report
    && forall i :: |before| <= i < |tried| - 1 ==> IsRetried(tried[i])
  }

  lemma AttemptedFirst(before: seq<Report>, report: Report)
    ensures Attempted(before, before + [report], 1, report)
  {
  }

  lemma AttemptedOnceMore(before: seq<Report>, tried: seq<Report>, attempts: nat, failed: Report, report: Report)
    requires attempts > 0 && Attempted(before, tried, attempts - 1, failed) && IsRetried(failed)
    ensures Attempted(before, tried + [report], attempts, report)
  {
  }

  /** The domain clocks on record, their mean, and what has been verified before. */
  class Clocks {
    const bus: Bus
    var domain: seq<real>
    var mean: real
    var clocksVerified: bool
    var runningVerified: bool
    var configuredAt: nat
    /** What every attempt of a step so far has reported. */
    ghost var tried: seq<Report>

    ghost function Now(): Board
      reads this`domain, bus
    {
      Board(domain, bus.plls)
    }

    ghost predicate Valid()
      reads this, bus
    {
      && bus.Valid()
      && |domain| == DOMAINS
      && (runningVerified ==> clocksVerified)
      && (clocksVerified ==> mean == Mean(domain) && Now().AllOnGrid())
    }

    constructor (bus: Bus)
      requires bus.Valid()
      ensures Valid() && this.bus == bus && !clocksVerified && !runningVerified
    {
      this.bus := bus;
      domain, mean := seq(DOMAINS, d => 0.0), 0.0;
      clocksVerified, runningVerified := false, false;
      tried := [];
    }

    /** What a passed clock stage puts on record: every domain at the power-on frequency. */
    method RecordPowerOn()
      requires bus.Valid() && !runningVerified
      modifies this`domain, this`mean, this`clocksVerified
      ensures Valid() && clocksVerified && mean == POWER_ON
      ensures |domain| == DOMAINS && forall d :: 0 <= d < DOMAINS ==> domain[d] == POWER_ON
      ensures (forall d :: 0 <= d < DOMAINS ==>
                bus.plls[d].feedback == MIN_DIVIDER && bus.plls[d].postdiv == POSTDIV) ==>
                  forall d :: 0 <= d < DOMAINS ==> Now().Agrees(d)
    {
      hide Resolve, Mean;
      domain := seq(DOMAINS, d => POWER_ON);
      mean := POWER_ON;
      clocksVerified := true;
      MeanOfEqual(domain, POWER_ON);
      ResolveOfGrid(MIN_DIVIDER);
    }

    /** What a passed check of the running chain puts on record. */
    method RecordRunning()
      requires Valid() && clocksVerified
      modifies this`runningVerified
      ensures Valid() && runningVerified
    {
      runningVerified := true;
    }

    /** Read a domain's dividers back, then poll its lock bits at most thirty times. */
    method VerifyDomain(d: nat, t: Target) returns (outcome: Outcome, reason: Reason)
      requires bus.Valid() && d < DOMAINS
      modifies bus
      ensures bus.Valid()
      ensures forall i :: 0 <= i < DOMAINS ==>
                bus.plls[i].feedback == old(bus.plls)[i].feedback && bus.plls[i].postdiv == old(bus.plls)[i].postdiv
      ensures forall i :: 0 <= i < DOMAINS && i != d ==> bus.plls[i] == old(bus.plls)[i]
      ensures outcome == Good || (outcome == Bad && reason in {Io, RegisterReadback, PllUnlocked})
      ensures outcome == Good ==> bus.plls[d].Proven(t)
      ensures old(bus.log) <= bus.log
      ensures outcome == Bad ==> Deserved(bus.log, |old(bus.log)|, d, t, reason)
    {
      hide Locked, Access.Unlocked;
      var ok, value := bus.Read(d, Feedback);
      if !ok {
        return Bad, Io;
      }
      if value != t.feedback {
        return Bad, RegisterReadback;
      }
      ok, value := bus.Read(d, Postdiv);
      if !ok {
        return Bad, Io;
      }
      if value != t.postdiv {
        return Bad, RegisterReadback;
      }
      var attempt := 0;
      while attempt < LOCK_ATTEMPTS
        invariant bus.Valid() && attempt <= LOCK_ATTEMPTS
        invariant old(bus.log) <= bus.log && |bus.log| >= |old(bus.log)| + attempt
        invariant forall i :: |bus.log| - attempt <= i < |bus.log| ==> bus.log[i].Unlocked(d)
        invariant forall i :: 0 <= i < DOMAINS && i != d ==> bus.plls[i] == old(bus.plls)[i]
        invariant bus.plls[d].feedback == old(bus.plls)[d].feedback && bus.plls[d].postdiv == old(bus.plls)[d].postdiv
        invariant bus.plls[d].seenFeedback == Some(t.feedback) && bus.plls[d].seenPostdiv == Some(t.postdiv)
      {
        ok, value := bus.Read(d, Enable);
        if !ok {
          return Bad, Io;
        }
        if Locked(value) {
          return Good, NoReason;
        }
        UnlockedOnceMore(bus.log, d, value, attempt);
        attempt := attempt + 1;
      }
      outcome, reason := Bad, PllUnlocked;
    }

    /** Set a domain's two dividers and verify them. A failure may leave either divider old or new. */
    method ProgramDomain(d: nat, t: Target) returns (outcome: Outcome, reason: Reason)
      requires bus.Valid() && d < DOMAINS && t.feedback >= 0 && t.postdiv >= 0
      modifies bus
      ensures bus.Valid()
      ensures forall i :: 0 <= i < DOMAINS && i != d ==> bus.plls[i] == old(bus.plls)[i]
      ensures outcome == Good || (outcome == Bad && reason in {Io, RegisterReadback, PllUnlocked})
      ensures outcome == Good ==> bus.plls[d].Runs(t) && bus.plls[d].Proven(t)
      ensures old(bus.log) <= bus.log
      ensures outcome == Bad ==> Deserved(bus.log, |old(bus.log)|, d, t, reason)
    {
      var ok := bus.Write(One(d), Feedback, t.feedback);
      if ok {
        ok := bus.Write(One(d), Postdiv, t.postdiv);
      }
      if !ok {
        return Bad, Io;
      }
      ghost var from := |bus.log|;
      outcome, reason := VerifyDomain(d, t);
      if outcome == Bad {
        DeservedSooner(bus.log, from, |old(bus.log)|, d, t, reason);
      }
    }

    /** Set the dividers of every domain by broadcast, PLL by PLL, and verify each. */
    method ProgramAll(t: Target) returns (report: Report)
      requires bus.Valid() && t.feedback >= 0 && t.postdiv >= 0
      modifies bus
      ensures bus.Valid()
      ensures report.outcome == Good || (report.outcome == Bad && report.reason in {Io, RegisterReadback, PllUnlocked})
      ensures old(bus.log) <= bus.log
      ensures report.outcome == Bad ==>
                report.completed < DOMAINS && Deserved(bus.log, |old(bus.log)|, report.completed, t, report.reason)
      ensures report.outcome == Good ==> report == LAST && forall d :: 0 <= d < DOMAINS ==>
                bus.plls[d].Runs(t) && bus.plls[d].Proven(t)
    {
      var pll := 0;
      while pll < PLLS
        invariant 0 <= pll <= PLLS && bus.Valid() && old(bus.log) <= bus.log
        invariant forall d :: 0 <= d < DOMAINS && d % PLLS < pll ==> bus.plls[d].Runs(t)
      {
        var ok := bus.Write(Every(pll), Feedback, t.feedback);
        if ok {
          ok := bus.Write(Every(pll), Postdiv, t.postdiv);
        }
        if !ok {
          return Report(Bad, Io, ALL, pll, pll);
        }
        pll := pll + 1;
      }
      var d := 0;
      while d < DOMAINS
        invariant 0 <= d <= DOMAINS && bus.Valid() && old(bus.log) <= bus.log
        invariant forall i :: 0 <= i < DOMAINS ==> bus.plls[i].Runs(t)
        invariant forall i :: 0 <= i < d ==> bus.plls[i].Proven(t)
      {
        ghost var from := |bus.log|;
        var outcome, reason := VerifyDomain(d, t);
        if outcome != Good {
          DeservedSooner(bus.log, from, |old(bus.log)|, d, t, reason);
          return Report(Bad, reason, WIRE_IDS[d / PLLS], d, d % PLLS);
        }
        d := d + 1;
      }
      report := LAST;
    }

    /** The checks before anything is written: of everything, then domain by domain. */
    method Admit(targets: seq<Float>, jump: bool) returns (admitted: bool, report: Report)
      requires |domain| == DOMAINS && |targets| == DOMAINS
      ensures admitted <==> clocksVerified && runningVerified && AllAcceptable(domain, targets, jump)
      ensures !admitted ==> report.outcome == Blocked && report.reason == InvalidArgument && report.completed == 0
      ensures !admitted && clocksVerified && runningVerified ==>
                exists d :: && 0 <= d < DOMAINS && NamesDomain(report, d)
                  && !DomainAcceptable(domain[d], targets[d], targets[0], jump)
                  && forall i :: 0 <= i < d ==> DomainAcceptable(domain[i], targets[i], targets[0], jump)
    {
      report := Report(Blocked, InvalidArgument, ALL, 0);
      if !clocksVerified || !runningVerified {
        return false, report;
      }
      var d := 0;
      while d < DOMAINS
        invariant 0 <= d <= DOMAINS
        invariant forall i :: 0 <= i < d ==> DomainAcceptable(domain[i], targets[i], targets[0], jump)
      {
        if !DomainAcceptable(domain[d], targets[d], targets[0], jump) {
          return false, Report(Blocked, InvalidArgument, WIRE_IDS[d / PLLS], 0, d % PLLS);
        }
        d := d + 1;
      }
      admitted := true;
    }

    /** The ordinary walk over the domains, possibly taking up a walk that stopped at domain `from`. */
    method Walk(targets: seq<Float>, ghost before: Board, ghost from: nat) returns (report: Report)
      requires bus.Valid() && |domain| == DOMAINS && from <= DOMAINS && Now().AllOnGrid()
      requires StoppedAt(before, Now(), targets, from)
      modifies this`domain, this`mean, bus
      ensures bus.Valid() && |domain| == DOMAINS && mean == Mean(domain) && Now().AllOnGrid()
      ensures old(bus.log) <= bus.log
      ensures report.outcome == Good ==> report == LAST && StoppedAt(before, Now(), targets, DOMAINS)
      ensures report.outcome != Good ==>
                && report.outcome == Bad && report.reason in {Io, RegisterReadback, PllUnlocked}
                && report.completed < DOMAINS && NamesDomain(report, report.completed)
                && targets[report.completed].Mhz? && StoppedAt(before, Now(), targets, report.completed)
                && Changed(before.recorded[report.completed], targets[report.completed])
                && Deserved(bus.log, |old(bus.log)|, report.completed, Goal(targets[report.completed]), report.reason)
    {
      hide OnGrid, Changed, Goal, Pll.Runs, Pll.Proven, Mean, StoppedAt, Deserved;
      var d := 0;
      StoppedIsSized(before, Now(), targets, from);
      ghost var k := from;
      while d < DOMAINS
        invariant 0 <= d <= DOMAINS && k == (if d < from then from else d) && bus.Valid() && |domain| == DOMAINS
        invariant Now().AllOnGrid() && old(bus.log) <= bus.log
        invariant StoppedAt(before, Now(), targets, k)
      {
        GoalIsOnGrid(targets[d]);
        StoppedIsSized(before, Now(), targets, k);
        if Changed(domain[d], targets[d]) {
          assert d >= from by { BeforeStopUnchanged(before, Now(), targets, k, d); }
          ghost var board, since := Now(), |bus.log|;
          var outcome, reason := ProgramDomain(d, Goal(targets[d]));
          if outcome != Good {
            DeservedSooner(bus.log, since, |old(bus.log)|, d, Goal(targets[d]), reason);
            FailedDomain(before, board, targets, bus.plls, d);
            mean := Mean(domain);
            return Report(outcome, reason, WIRE_IDS[d / PLLS], d, d % PLLS);
          }
          MoveDomain(before, board, targets, bus.plls, d);
          domain := domain[d := Goal(targets[d]).actual];
        } else if d >= from {
          SkipDomain(before, Now(), targets, d);
        }
        d := d + 1;
        k := if d < from then from else d;
      }
      mean := Mean(domain);
      report := LAST;
    }

    /** What a report means for the step's own record: blocked leaves all as it was, and the bus alone; a failure
        has one of three reasons and leaves the time, and after a broadcast the mean; a good one is of the last
        domain, and the time was read after everything else. */
    ghost predicate Settled(report: Report, shortcut: bool, meanBefore: real, timeBefore: nat, logBefore: seq<Access>)
      reads this`mean, this`configuredAt, bus
    {
      && (report.outcome == Blocked ==> mean == meanBefore && bus.log == logBefore)
      && (report.outcome == Bad ==> report.reason in {Io, RegisterReadback, PllUnlocked})
      && (report.outcome == Bad && shortcut ==> mean == meanBefore)
      && (report.outcome == Good ==> report == LAST && bus.log != [] && bus.log[|bus.log| - 1] == Clock(configuredAt))
      && (report.outcome != Good ==> configuredAt == timeBefore)
    }

    lemma FailureSettles(report: Report, shortcut: bool, mean0: real, time0: nat, log0: seq<Access>)
      requires Settled(report, shortcut, mean0, time0, log0) && report.outcome == Bad
      ensures configuredAt == time0 && (shortcut ==> mean == mean0)
    {
    }

    /** What was settled of a failure carries over to the attempt after it. */
    lemma SettledAgain(report: Report, shortcut: bool, mean0: real, time0: nat, log0: seq<Access>,
                       mean1: real, time1: nat, log1: seq<Access>)
      requires Settled(report, shortcut, mean1, time1, log1) && report.outcome != Blocked
      requires time1 == time0 && (shortcut ==> mean1 == mean0)
      ensures Settled(report, shortcut, mean0, time0, log0)
    {
    }

    /** One attempt: check everything, then either the broadcast or the walk. */
    method StepOnce(targets: seq<Float>, jump: bool, ghost before: Board, ghost from: nat) returns (report: Report)
      requires Valid() && |targets| == DOMAINS && before.Sized() && from <= DOMAINS
      requires AllAcceptable(domain, targets, jump) && !IsShortcut(jump, targets) ==>
                 StoppedAt(before, Now(), targets, from)
      requires IsShortcut(jump, targets) || !AllAcceptable(domain, targets, jump) ==> domain == before.recorded
      requires !AllAcceptable(domain, targets, jump) || !runningVerified ==> Now() == before
      modifies this`domain, this`mean, this`configuredAt, this`tried, bus
      ensures Valid() && tried == old(tried) + [report]
      ensures StepAllows(before, Now(), targets, jump,
                clocksVerified && runningVerified && AllAcceptable(old(domain), targets, jump), report)
      ensures Settled(report, IsShortcut(jump, targets), old(mean), old(configuredAt), old(bus.log))
      ensures old(bus.log) <= bus.log
      ensures report.outcome == Blocked || (report.outcome == Bad && IsShortcut(jump, targets)) ==>
                domain == old(domain)
      ensures Excused(bus.log, |old(bus.log)|, targets, jump, report)
    {
      hide OnGrid, Changed, Goal, Pll.Runs, Pll.Proven, Mean, StoppedAt, Resolve, AllAcceptable, Deserved;
      var admitted;
      admitted, report := Admit(targets, jump);
      if !admitted {
        tried := tried + [report];
        return;
      }
      AdmittedIsFinite(domain, targets, jump);
      if IsShortcut(jump, targets) {
        GoalIsOnGrid(targets[0]);
        report := ProgramAll(Goal(targets[0]));
        if report.outcome != Good {
          tried := tried + [report];
          return;
        }
        JumpIsCommon(domain, targets);
        ProvenEverywhere(targets, bus.plls);
        domain := seq(DOMAINS, d => Goal(targets[0]).actual);
        mean := Goal(targets[0]).actual;
        MeanOfEqual(domain, mean);
      } else {
        report := Walk(targets, before, from);
        if report.outcome != Good {
          tried := tried + [report];
          return;
        }
      }
      configuredAt := bus.Time();
      tried := tried + [report];
    }

    /** Another attempt after a failure that is worth one. It is admitted, and takes up where the last one
        stopped. */
    method TryAgain(targets: seq<Float>, jump: bool, ghost before: Board, ghost admitted: bool, failed: Report)
      returns (report: Report)
      requires Valid() && |targets| == DOMAINS && IsRetried(failed)
      requires StepAllows(before, Now(), targets, jump, admitted, failed)
      requires admitted ==> clocksVerified && runningVerified
      requires |before.recorded| == DOMAINS && (admitted ==> AllAcceptable(before.recorded, targets, jump))
      modifies this`domain, this`mean, this`configuredAt, this`tried, bus
      ensures Valid() && tried == old(tried) + [report] && old(bus.log) <= bus.log
      ensures StepAllows(before, Now(), targets, jump, admitted, report) && report.outcome != Blocked
      ensures Excused(bus.log, |old(bus.log)|, targets, jump, report)
      ensures Settled(report, IsShortcut(jump, targets), old(mean), old(configuredAt), old(bus.log))
    {
      hide OnGrid, Changed, Goal, Pll.Runs, Pll.Proven, Mean, StoppedAt, AllAcceptable, Resolve, StepAllows, Excused;
      BadStepStopped(before, Now(), targets, jump, admitted, failed);
      if !IsShortcut(jump, targets) {
        StillAcceptable(before, Now(), targets, failed.completed, jump);
      }
      report := StepOnce(targets, jump, before, if IsShortcut(jump, targets) then 0 else failed.completed);
      AdmittedIsNotBlocked(before, Now(), targets, jump, admitted, report);
    }

    lemma ValidIsSized()
      requires Valid()
      ensures bus.Valid() && |domain| == DOMAINS && (clocksVerified ==> Now().AllOnGrid())
    {
    }

    /** A live step: at most three attempts, another one only after an I/O or read-back failure. Nothing is
        assumed of how record and hardware agree beforehand. */
    method Step(targets: seq<Float>, jump: bool) returns (report: Report, attempts: nat)
      requires Valid() && |targets| == DOMAINS
      modifies this`domain, this`mean, this`configuredAt, this`tried, bus
      ensures Valid()
      ensures 1 <= attempts <= ATTEMPTS && (IsRetried(report) ==> attempts == ATTEMPTS)
      ensures Attempted(old(tried), tried, attempts, report)
      ensures StepAllows(old(Now()), Now(), targets, jump,
                clocksVerified && runningVerified && AllAcceptable(old(domain), targets, jump), report)
      ensures Settled(report, IsShortcut(jump, targets), old(mean), old(configuredAt), old(bus.log))
      ensures Excused(bus.log, |old(bus.log)|, targets, jump, report)
      ensures clocksVerified && runningVerified && AllAcceptable(old(domain), targets, jump) ==>
                Troubled(bus.log, |old(bus.log)|, targets, jump) || (report.outcome == Good && attempts == 1)
    {
      hide OnGrid, Changed, Goal, Pll.Runs, Pll.Proven, Mean, StoppedAt, AllAcceptable, Resolve, StepAllows, Excused,
          Troubled, Board.AllOnGrid, DomainAcceptable, Attempted, Settled, Valid;
      ValidIsSized();
      ghost var before := Now();
      ghost var admissible := clocksVerified && runningVerified && AllAcceptable(domain, targets, jump);
      if AllAcceptable(domain, targets, jump) {
        AdmittedIsFinite(domain, targets, jump);
        NotYetStarted(before, targets);
      }
      attempts := 1;
      report := StepOnce(targets, jump, before, 0);
      AttemptedFirst(old(tried), report);
      if report.outcome == Bad {
        ExcusedIsTrouble(bus.log, |old(bus.log)|, targets, jump, report);
      } else if admissible {
        AdmittedIsNotBlocked(before, Now(), targets, jump, admissible, report);
      }
      while report.outcome == Bad && (report.reason == Io || report.reason == RegisterReadback) && attempts < ATTEMPTS
        invariant 1 <= attempts <= ATTEMPTS && Valid()
        invariant Attempted(old(tried), tried, attempts, report)
        invariant StepAllows(before, Now(), targets, jump, admissible, report)
        invariant clocksVerified == old(clocksVerified) && runningVerified == old(runningVerified)
        invariant Settled(report, IsShortcut(jump, targets), old(mean), old(configuredAt), old(bus.log))
        invariant old(bus.log) <= bus.log && (admissible ==> report.outcome != Blocked)
        invariant Excused(bus.log, |old(bus.log)|, targets, jump, report)
        invariant report.outcome == Bad || attempts > 1 ==> Troubled(bus.log, |old(bus.log)|, targets, jump)
      {
        attempts := attempts + 1;
        ghost var log, earlier, failed, mean1, time1 := bus.log, tried, report, mean, configuredAt;
        FailureSettles(report, IsShortcut(jump, targets), old(mean), old(configuredAt), old(bus.log));
        report := TryAgain(targets, jump, before, admissible, report);
        SettledAgain(report, IsShortcut(jump, targets), old(mean), old(configuredAt), old(bus.log), mean1, time1,
                     log);
        AttemptedOnceMore(old(tried), earlier, attempts, failed, report);
        TroubleStays(log, bus.log, |old(bus.log)|, targets, jump);
        ExcusedSooner(bus.log, |log|, |old(bus.log)|, targets, jump, report);
      }
    }
  }

  lemma AdmittedIsNotBlocked(before: Board, after: Board, targets: seq<Float>, jump: bool, admitted: bool,
                             report: Report)
    requires StepAllows(before, after, targets, jump, admitted, report) && admitted
    ensures report.outcome != Blocked
  {
  }

  lemma BadStepStopped(before: Board, after: Board, targets: seq<Float>, jump: bool, admitted: bool, report: Report)
    requires StepAllows(before, after, targets, jump, admitted, report) && report.outcome == Bad
    ensures admitted && before.Sized() && |targets| == DOMAINS
    ensures !IsShortcut(jump, targets) ==>
              report.completed < DOMAINS && StoppedAt(before, after, targets, report.completed)
    ensures IsShortcut(jump, targets) ==> after.recorded == before.recorded
  {
  }

  // ----- The planner and the stepper agree -----

  /** Where the live ramp would take a domain next: on, or nowhere when it is there. */
  function Planned(current: real, goal: Float): Float {
    match NextLiveRamp(Mhz(current), goal) case Some(next) => Mhz(next) case None => Mhz(current)
  }

  /** A request is for a point of the grid. */
  predicate AsksFor(target: Float, k: int) {
    target.Mhz? && MIN_DIVIDER <= k <= MAX_DIVIDER && Abs(target.value - GRID * k as real) < EPSILON
  }

  lemma AskedIsResolved(target: Float, k: int)
    ensures AsksFor(target, k) ==> Resolvable(target) && Goal(target).actual == GRID * k as real
    ensures target.Mhz? && Resolvable(target) ==> AsksFor(target, Goal(target).feedback)
  {
    if target.Mhz? {
      GridPoint(target.value);
      ResolveLandsOnGrid(target.value);
      if AsksFor(target, k) {
        NearestIsAsked(Clamp(target.value, TARGET_MIN, TARGET_MAX), Goal(target).feedback, k);
      }
    }
  }

  lemma NearestIsAsked(mhz: real, d: int, k: int)
    requires Abs(GRID * d as real - mhz) <= GRID / 2.0 && Abs(mhz - GRID * k as real) < EPSILON
    ensures d == k
  {
  }

  /** From a point of the grid an ordinary request is acceptable exactly if it is for one at most four dividers,
      25 MHz, away. */
  lemma OrdinaryIsAcceptable(c: int, target: Float, first: Float)
    requires MIN_DIVIDER <= c <= MAX_DIVIDER
    ensures DomainAcceptable(GRID * c as real, target, first, false) <==>
              exists k: int :: AsksFor(target, k) && -4 <= k - c <= 4
  {
    hide Resolve, Resolvable, AsksFor, Divider;
    if target.Mhz? {
      GridPoint(target.value);
      AskedIsResolved(target, 0);
      if k: int :| AsksFor(target, k) && -4 <= k - c <= 4 {
        AskedIsResolved(target, k);
      }
    } else {
      NotAskedFor(target);
    }
  }

  lemma NotAskedFor(target: Float)
    requires target.NotFinite?
    ensures !Resolvable(target) && forall k: int :: !AsksFor(target, k)
  {
  }

  /** All ask for one point of the grid, not above 1425 MHz. */
  predicate JumpTo(targets: seq<Float>, k: int)
    requires |targets| == DOMAINS
  {
    k <= INITIAL_MAX_DIVIDER && forall d :: 0 <= d < DOMAINS ==> AsksFor(targets[d], k)
  }

  /** A jump is acceptable exactly if every domain is at power-on and all ask for one point of the grid, not
      above 1425 MHz. */
  lemma JumpIsAcceptable(current: seq<real>, targets: seq<Float>)
    requires |current| == DOMAINS && |targets| == DOMAINS && forall d :: 0 <= d < DOMAINS ==> OnGrid(current[d])
    ensures AllAcceptable(current, targets, true) <==>
              && (forall d :: 0 <= d < DOMAINS ==> current[d] == POWER_ON)
              && exists k: int :: JumpTo(targets, k)
  {
    hide Resolve, Resolvable, AsksFor, Divider;
    forall d | 0 <= d < DOMAINS
      ensures Abs(current[d] - POWER_ON) < EPSILON <==> current[d] == POWER_ON
    {
      GridPoint(current[d]);
      GridGap(Resolve(Mhz(current[d])).value.feedback, MIN_DIVIDER);
    }
    if AllAcceptable(current, targets, true) {
      JumpIsCommon(current, targets);
      var k := Goal(targets[0]).feedback;
      forall d | 0 <= d < DOMAINS
        ensures current[d] == POWER_ON && AsksFor(targets[d], k)
      {
        AskedIsResolved(targets[d], k);
        assert DomainAcceptable(current[d], targets[d], targets[0], true);
      }
      GridPoint(targets[0].value);
      assert DomainAcceptable(current[0], targets[0], targets[0], true);
      assert JumpTo(targets, k);
    }
    if (forall d :: 0 <= d < DOMAINS ==> current[d] == POWER_ON) && exists k: int :: JumpTo(targets, k) {
      var k: int :| JumpTo(targets, k);
      forall d | 0 <= d < DOMAINS
        ensures DomainAcceptable(current[d], targets[d], targets[0], true)
      {
        AskedIsResolved(targets[d], k);
        AskedIsResolved(targets[0], k);
        AskedIsPositive(targets[d], k);
        AskedIsPositive(targets[0], k);
      }
    }
  }

  lemma AskedIsPositive(target: Float, k: int)
    requires AsksFor(target, k)
    ensures target.Mhz? && MIN_DIVIDER <= k
  {
  }

  /** A step moves no domain's clock by more than 25 MHz, but for the one jump from power-on, which passes
      1425 MHz in none. */
  lemma StepsAreSmall(before: Board, after: Board, targets: seq<Float>, jump: bool, admitted: bool, report: Report,
                      d: nat)
    requires StepAllows(before, after, targets, jump, admitted, report) && before.AllOnGrid() && d < DOMAINS
    requires admitted ==> AllAcceptable(before.recorded, targets, jump)
    ensures || -25.0 <= after.recorded[d] - before.recorded[d] <= 25.0
            || (jump && before.recorded[d] == 800.0 <= after.recorded[d] <= 1425.0)
  {
    hide Resolve, Resolvable, AsksFor, Divider, AllAcceptable, DomainAcceptable, Changed, OnGrid, Goal, IsShortcut;
    GridPoint(before.recorded[d]);
    if report.outcome != Blocked && after.recorded[d] != before.recorded[d] {
      assert after.recorded[d] == Goal(targets[d]).actual;
      assert admitted;
      if jump {
        JumpIsAcceptable(before.recorded, targets);
        var k: int :| JumpTo(targets, k);
        AskedIsResolved(targets[d], k);
        AskedIsPositive(targets[d], k);
      } else {
        MovesAtMostFour(before.recorded, targets, d);
      }
    }
  }

  lemma MovesAtMostFour(current: seq<real>, targets: seq<Float>, d: nat)
    requires |current| == DOMAINS && |targets| == DOMAINS && AllAcceptable(current, targets, false)
    requires d < DOMAINS && OnGrid(current[d]) && targets[d].Mhz?
    ensures -25.0 <= Goal(targets[d]).actual - current[d] <= 25.0
  {
    hide Resolve, Resolvable, AsksFor, Divider, Changed, Goal, OnGrid;
    var c := GridIndex(current[d]);
    assert DomainAcceptable(current[d], targets[d], targets[0], false);
    OrdinaryIsAcceptable(c, targets[d], targets[0]);
    var k: int :| AsksFor(targets[d], k) && -4 <= k - c <= 4;
    AskedIsResolved(targets[d], k);
  }

  ghost function GridIndex(mhz: real): (c: int)
    requires OnGrid(mhz)
    ensures MIN_DIVIDER <= c <= MAX_DIVIDER && mhz == GRID * c as real
  {
    ResolveLandsOnGrid(mhz);
    Resolve(Mhz(mhz)).value.feedback
  }

  /** Every step the live ramp plans, for any goals of the eight domains, is admitted. */
  lemma PlannedStepIsAdmitted(current: seq<real>, goals: seq<Float>)
    requires |current| == DOMAINS && |goals| == DOMAINS
    requires forall d :: 0 <= d < DOMAINS ==> OnGrid(current[d]) && IsValid(goals[d])
    ensures AllAcceptable(current, seq(DOMAINS, d requires 0 <= d < DOMAINS => Planned(current[d], goals[d])), false)
  {
    hide Resolve, NextLiveRamp, Divider;
    forall d | 0 <= d < DOMAINS
      ensures DomainAcceptable(current[d], Planned(current[d], goals[d]), Planned(current[0], goals[0]), false)
    {
      PlannedIsAcceptable(current[d], goals[d], Planned(current[0], goals[0]));
    }
  }

  lemma NextOfUnresolvedGoal(current: real, goal: Float)
    requires IsValid(goal)
    ensures NextLiveRamp(Mhz(current), goal) == NextLiveRamp(Mhz(current), Mhz(Resolve(goal).value.actual))
  {
    hide Divider;
    ResolveLandsOnGrid(goal.value);
  }

  lemma PlannedIsAcceptable(current: real, goal: Float, first: Float)
    requires OnGrid(current) && IsValid(goal)
    ensures DomainAcceptable(current, Planned(current, goal), first, false)
  {
    hide NextLiveRamp, Divider;
    var now, end := Resolve(Mhz(current)).value.feedback, Resolve(goal).value.feedback;
    ResolveLandsOnGrid(current);
    ResolveLandsOnGrid(goal.value);
    NextOfUnresolvedGoal(current, goal);
    LiveStepOnGrid(now, end);
    ResolveOfGrid(StepDivider(now, end));
    ResolveOfGrid(now);
  }

  /** The first jump the planner makes from power-on, the same for all domains, is admitted as a jump. */
  lemma InitialJumpIsAdmitted(current: seq<real>, target: Float)
    requires |current| == DOMAINS && IsValid(target) && forall d :: 0 <= d < DOMAINS ==> current[d] == POWER_ON
    ensures AllAcceptable(current, seq(DOMAINS, d => Initial(target)), true)
  {
    hide Divider;
    GridPoint(target.value);
    ResolveLandsOnGrid(target.value);
    InitialIsBelow(Resolve(target).value.feedback);
    InitialIsOnGrid(target.value);
    InitialOfResolved(target);
    ResolveOfGrid(MIN_DIVIDER);
  }

  lemma InitialOfResolved(target: Float)
    requires IsValid(target)
    ensures Initial(target) == Initial(Mhz(Resolve(target).value.actual))
  {
    hide Divider;
    ResolveLandsOnGrid(target.value);
  }

  /** Along the live ramp's path each point is what the planner gives for the one before. */
  lemma LivePathIsPlanned(now: int, goal: int, steps: nat)
    requires MIN_DIVIDER <= now <= MAX_DIVIDER && MIN_DIVIDER <= goal <= MAX_DIVIDER &&
               steps <= StepsFor(Distance(now, goal))
    ensures NextLiveRamp(Mhz(GRID * LivePath(now, goal, steps) as real), Mhz(GRID * goal as real))
         == if steps == StepsFor(Distance(now, goal)) then None else Some(GRID * LivePath(now, goal, steps + 1) as real)
  {
    hide NextLiveRamp, Divider;
    LiveRampTakesExactly(now, goal, steps);
    LiveStepOnGrid(LivePath(now, goal, steps), goal);
  }
}
