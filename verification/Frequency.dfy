/** Frequency targets of the two hash PLLs, components/asic/bzm_frequency.c, in exact arithmetic. The
    divider grid is 6.25 MHz, and every frequency on it is a float without rounding. */
module Frequency {
  import opened Options

  /** A float: finite, or one of the others. */
  datatype Float = NotFinite | Mhz(value: real)

  const POWER_ON := 800.0
  const TARGET_MIN := 800.0
  const TARGET_MAX := 2000.0
  const INITIAL_OFFSET := 100.0
  const INITIAL_MAX := 1425.0
  const RAMP_STEP := 25.0
  const EPSILON := 0.001
  const GRID := 6.25
  const MIN_DIVIDER := 128
  const MAX_DIVIDER := 320
  const POSTDIV := 0x1242
  const STEP_DIVIDERS := 4  // of the grid to one ramp step
  const OFFSET_DIVIDERS := 16
  const INITIAL_MAX_DIVIDER := 228

  datatype Target = Target(requested: real, actual: real, feedback: int, postdiv: int)

  function Clamp(f: real, lo: real, hi: real): real {
    if f < lo then lo else if f > hi then hi else f
  }

  function Abs(x: real): real {
    if x < 0.0 then -x else x
  }

  predicate IsValid(f: Float) {
    f.Mhz? && TARGET_MIN <= f.value <= TARGET_MAX
  }

  /** Nearest divider, an exact tie going down. */
  function Divider(mhz: real): int {
    var feedback := 2.0 * 2.0 * 2.0 * mhz / 50.0;
    if feedback - feedback.Floor as real > 0.5 then feedback.Floor + 1 else feedback.Floor
  }

  function ActualOf(divider: int): real {
    50.0 * divider as real / (2.0 * 2.0 * 2.0)
  }

  function Resolve(f: Float): Option<Target> {
    if f.NotFinite? then None
    else
      var d := Divider(Clamp(f.value, TARGET_MIN, TARGET_MAX));
      Some(Target(f.value, ActualOf(d), d, POSTDIV))
  }

  /** Where the first jump from power-on goes. */
  function Initial(target: Float): Float {
    match Resolve(target)
    case None => NotFinite
    case Some(t) =>
      match Resolve(Mhz(Clamp(t.actual - INITIAL_OFFSET, TARGET_MIN, INITIAL_MAX)))
      case None => NotFinite
      case Some(i) => Mhz(i.actual)
  }

  function NextRamp(current: Float, target: Float): Option<real> {
    if current.NotFinite? || !IsValid(target) || Resolve(target).None? || current.value < POWER_ON - EPSILON then None
    else
      var goal := Resolve(target).value.actual;
      if current.value >= goal - EPSILON then None
      else
        var initial := Initial(Mhz(goal));
        var jump := Abs(current.value - POWER_ON) <= EPSILON && initial.Mhz? && initial.value > current.value + EPSILON;
        var wanted := if jump then initial.value else current.value + RAMP_STEP;
        var candidate := if wanted > goal then goal else wanted;
        var resolved := Resolve(Mhz(candidate));
        if resolved.None? || resolved.value.actual <= current.value + EPSILON then None
        else Some(resolved.value.actual)
  }

  function NextLiveRamp(current: Float, target: Float): Option<real> {
    if !IsValid(current) || !IsValid(target) || Resolve(current).None? || Resolve(target).None?
       || Abs(Resolve(current).value.actual - current.value) >= EPSILON then None
    else
      var now, goal := Resolve(current).value.actual, Resolve(target).value.actual;
      var delta := goal - now;
      if Abs(delta) < EPSILON then None
      else
        var wanted := now + (if delta > 0.0 then RAMP_STEP else -RAMP_STEP);
        var candidate := if (delta > 0.0 && wanted > goal) || (delta < 0.0 && wanted < goal) then goal else wanted;
        var resolved := Resolve(Mhz(candidate));
        if resolved.None? || Abs(resolved.value.actual - now) < EPSILON then None else Some(resolved.value.actual)
  }

  // ----- Resolution -----

  lemma DividerBounds(mhz: real)
    ensures -GRID / 2.0 <= ActualOf(Divider(mhz)) - mhz < GRID / 2.0
  {
  }

  /** No divider is nearer than the chosen one, and of two equally near the lower is chosen. */
  lemma DividerIsNearest(mhz: real, d: int)
    ensures Abs(ActualOf(Divider(mhz)) - mhz) <= GRID / 2.0
    ensures Abs(ActualOf(Divider(mhz)) - mhz) <= Abs(ActualOf(d) - mhz)
    ensures Abs(ActualOf(Divider(mhz)) - mhz) == Abs(ActualOf(d) - mhz) ==> Divider(mhz) <= d
  {
    DividerBounds(mhz);
  }

  lemma DividerIsMonotone(a: real, b: real)
    requires a <= b
    ensures Divider(a) <= Divider(b)
  {
  }

  lemma DividerOfGrid(d: int)
    ensures Divider(ActualOf(d)) == d && ActualOf(d) == GRID * d as real
  {
  }

  /** Resolving clamps to the range first, lands on the grid, and is idempotent. */
  lemma ResolveLandsOnGrid(mhz: real)
    ensures var t := Resolve(Mhz(mhz)).value;
            && MIN_DIVIDER <= t.feedback <= MAX_DIVIDER && t.actual == GRID * t.feedback as real
            && Abs(t.actual - Clamp(mhz, TARGET_MIN, TARGET_MAX)) <= GRID / 2.0
            && Resolve(Mhz(t.actual)).value.actual == t.actual
  {
    var c := Clamp(mhz, TARGET_MIN, TARGET_MAX);
    DividerIsMonotone(ActualOf(MIN_DIVIDER), c);
    DividerIsMonotone(c, ActualOf(MAX_DIVIDER));
    DividerOfGrid(MIN_DIVIDER);
    DividerOfGrid(MAX_DIVIDER);
    DividerOfGrid(Divider(c));
    DividerIsNearest(c, 0);
  }

  lemma ResolveIsMonotone(a: real, b: real)
    requires a <= b
    ensures Resolve(Mhz(a)).value.actual <= Resolve(Mhz(b)).value.actual
  {
    DividerIsMonotone(Clamp(a, TARGET_MIN, TARGET_MAX), Clamp(b, TARGET_MIN, TARGET_MAX));
  }

  lemma ResolveOfGrid(d: int)
    requires MIN_DIVIDER <= d <= MAX_DIVIDER
    ensures Resolve(Mhz(GRID * d as real)) == Some(Target(GRID * d as real, GRID * d as real, d, POSTDIV))
  {
    DividerOfGrid(d);
  }

  // ----- The upward ramp -----

  /** The initial jump never passes its target, nor the highest first frequency. */
  lemma InitialIsBelow(d: int)
    requires MIN_DIVIDER <= d <= MAX_DIVIDER
    ensures var i := Initial(Mhz(GRID * d as real));
            i.Mhz? && i.value <= GRID * d as real && i.value <= INITIAL_MAX && POWER_ON <= i.value
  {
    hide Divider;
    ResolveOfGrid(d);
    var wanted := Clamp(GRID * d as real - INITIAL_OFFSET, TARGET_MIN, INITIAL_MAX);
    ResolveLandsOnGrid(wanted);
    ResolveIsMonotone(wanted, GRID * d as real);
    ResolveIsMonotone(wanted, INITIAL_MAX);
    ResolveOfGrid(228);
  }

  /** The ramp makes a step exactly when a valid target is still ahead, for any current frequency at all;
      the step is on the grid, moves up, and does not pass the target. */
  lemma RampProgresses(current: Float, target: Float)
    requires IsValid(target)
    ensures NextRamp(current, target).Some? <==>
              current.Mhz? && POWER_ON - EPSILON <= current.value < Resolve(target).value.actual - EPSILON
    ensures NextRamp(current, target).Some? ==>
              var next := NextRamp(current, target).value;
              current.value + EPSILON < next <= Resolve(target).value.actual && Resolve(Mhz(next)).value.actual == next
  {
    hide Divider, Initial;
    var goal := Resolve(target).value.actual;
    ResolveLandsOnGrid(target.value);
    InitialIsBelow(Resolve(target).value.feedback);
    if current.Mhz? && POWER_ON - EPSILON <= current.value < goal - EPSILON {
      var initial := Initial(Mhz(goal));
      var jump := Abs(current.value - POWER_ON) <= EPSILON && initial.Mhz? && initial.value > current.value + EPSILON;
      var wanted := if jump then initial.value else current.value + RAMP_STEP;
      var candidate := if wanted > goal then goal else wanted;
      ResolveLandsOnGrid(candidate);
      ResolveIsMonotone(candidate, goal);
      InitialIsOnGrid(goal);
    }
  }

  lemma InitialIsOnGrid(mhz: real)
    ensures var i := Initial(Mhz(mhz)); i.Mhz? && Resolve(Mhz(i.value)).value.actual == i.value
  {
    ResolveLandsOnGrid(mhz);
    ResolveLandsOnGrid(Clamp(Resolve(Mhz(mhz)).value.actual - INITIAL_OFFSET, TARGET_MIN, INITIAL_MAX));
  }

  /** The first jump, counted in dividers. */
  function InitialDivider(goal: int): int {
    if goal - OFFSET_DIVIDERS < MIN_DIVIDER then MIN_DIVIDER
    else if goal - OFFSET_DIVIDERS > INITIAL_MAX_DIVIDER then INITIAL_MAX_DIVIDER
    else goal - OFFSET_DIVIDERS
  }

  lemma InitialOnGrid(goal: int)
    requires MIN_DIVIDER <= goal <= MAX_DIVIDER
    ensures Initial(Mhz(GRID * goal as real)) == Mhz(GRID * InitialDivider(goal) as real)
  {
    hide Divider;
    ResolveOfGrid(goal);
    ResolveOfGrid(InitialDivider(goal));
  }

  /** One upward step, counted in dividers: the jump from power-on if there is one to make, or a ramp step. */
  function RampDivider(now: int, goal: int): int {
    var wanted := if now == MIN_DIVIDER && InitialDivider(goal) > now then InitialDivider(goal)
        else now + STEP_DIVIDERS;
    if wanted > goal then goal else wanted
  }

  lemma RampStepOnGrid(now: int, goal: int)
    requires MIN_DIVIDER <= now && MIN_DIVIDER <= goal <= MAX_DIVIDER
    ensures NextRamp(Mhz(GRID * now as real), Mhz(GRID * goal as real))
         == if now >= goal then None else Some(GRID * RampDivider(now, goal) as real)
  {
    hide Divider, Initial;
    ResolveOfGrid(goal);
    InitialOnGrid(goal);
    if now < goal {
      ResolveOfGrid(RampDivider(now, goal));
    }
  }

  function RampPath(now: int, goal: int, steps: nat): int {
    if steps == 0 then now else RampDivider(RampPath(now, goal, steps - 1), goal)
  }

  /** How many upward steps there are: the jump, and then ramp steps for what is left. */
  function RampSteps(now: int, goal: int): nat {
    if now >= goal then 0
    else if now == MIN_DIVIDER && InitialDivider(goal) > now then 1 + StepsFor(Distance(InitialDivider(goal), goal))
    else StepsFor(Distance(now, goal))
  }

  lemma RampStepCounts(now: int, goal: int)
    requires MIN_DIVIDER <= now < goal <= MAX_DIVIDER
    ensures MIN_DIVIDER < RampDivider(now, goal) <= goal
    ensures RampSteps(RampDivider(now, goal), goal) == RampSteps(now, goal) - 1
  {
  }

  /** From the grid the upward ramp reaches its goal after exactly that many steps, each of them planned,
      and at the goal no step is. */
  lemma {:induction false} RampTakesExactly(now: int, goal: int, steps: nat)
    requires MIN_DIVIDER <= now <= goal <= MAX_DIVIDER && steps <= RampSteps(now, goal)
    ensures MIN_DIVIDER <= RampPath(now, goal, steps) <= goal
    ensures RampSteps(RampPath(now, goal, steps), goal) == RampSteps(now, goal) - steps
    ensures RampPath(now, goal, steps) == goal <==> steps == RampSteps(now, goal)
    ensures NextRamp(Mhz(GRID * RampPath(now, goal, steps) as real), Mhz(GRID * goal as real))
         == if steps == RampSteps(now, goal) then None else Some(GRID * RampPath(now, goal, steps + 1) as real)
  {
    hide NextRamp, InitialDivider, RampDivider;
    if steps > 0 {
      RampTakesExactly(now, goal, steps - 1);
      RampStepCounts(RampPath(now, goal, steps - 1), goal);
    }
    StepsToGo(RampPath(now, goal, steps), goal);
    RampStepOnGrid(RampPath(now, goal, steps), goal);
  }

  lemma StepsToGo(now: int, goal: int)
    requires now <= goal
    ensures RampSteps(now, goal) == 0 <==> now == goal
    ensures RampSteps(now, goal) <= 1 + StepsFor(Distance(now, goal))
  {
  }

  /** From any frequency at all, on the grid or off it, the ramp's first step lands on the grid, and the goal
      is then at most ceil(distance / 25 MHz) further steps away. */
  lemma RampReachesFromAnywhere(current: real, goal: int)
    requires MIN_DIVIDER <= goal <= MAX_DIVIDER && NextRamp(Mhz(current), Mhz(GRID * goal as real)).Some?
    ensures var next := NextRamp(Mhz(current), Mhz(GRID * goal as real)).value;
            exists n: int :: && MIN_DIVIDER < n <= goal && next == GRID * n as real
                             && (RampSteps(n, goal) as real) * RAMP_STEP < GRID * goal as real - current + RAMP_STEP
  {
    hide Divider, NextRamp, Initial;
    var target := Mhz(GRID * goal as real);
    var next := NextRamp(Mhz(current), target).value;
    ResolveOfGrid(goal);
    RampProgresses(Mhz(current), target);
    ResolveLandsOnGrid(next);
    var n := Resolve(Mhz(next)).value.feedback;
    assert MIN_DIVIDER < n <= goal && next == GRID * n as real;
    StepsForBound(goal - n);
    var steps := RampSteps(n, goal);
    assert steps == StepsFor(goal - n);
    assert steps as real * RAMP_STEP == GRID * (steps * STEP_DIVIDERS) as real;
    assert (steps * STEP_DIVIDERS) as real <= (goal - n + 3) as real;
  }

  lemma StepsForBound(distance: nat)
    ensures StepsFor(distance) * STEP_DIVIDERS < distance + STEP_DIVIDERS
  {
  }

  // ----- The live ramp -----

  /** One live step, counted in dividers. */
  function StepDivider(now: int, goal: int): int {
    if goal > now then (if now + STEP_DIVIDERS > goal then goal else now + STEP_DIVIDERS)
    else (if now - STEP_DIVIDERS < goal then goal else now - STEP_DIVIDERS)
  }

  lemma LiveStepOnGrid(now: int, goal: int)
    requires MIN_DIVIDER <= now <= MAX_DIVIDER && MIN_DIVIDER <= goal <= MAX_DIVIDER
    ensures NextLiveRamp(Mhz(GRID * now as real), Mhz(GRID * goal as real))
         == if now == goal then None else Some(GRID * StepDivider(now, goal) as real)
  {
    hide Divider;
    ResolveOfGrid(now);
    ResolveOfGrid(goal);
    ResolveOfGrid(StepDivider(now, goal));
  }

  /** Frequencies the live ramp visits on its way, the current one first. */
  function LivePath(now: int, goal: int, steps: nat): int {
    if steps == 0 then now else StepDivider(LivePath(now, goal, steps - 1), goal)
  }

  function Distance(a: int, b: int): nat {
    if a < b then b - a else a - b
  }

  /** How many whole or part ramp steps a distance takes. */
  function StepsFor(distance: nat): nat {
    (distance + STEP_DIVIDERS - 1) / STEP_DIVIDERS
  }

  /** In either direction the live ramp reaches its goal after exactly ceil(distance / 25 MHz) steps: each
      earlier step is a planned one of at most 25 MHz, and at the goal there is none. */
  lemma {:induction false} LiveRampTakesExactly(now: int, goal: int, steps: nat)
    requires MIN_DIVIDER <= now <= MAX_DIVIDER && MIN_DIVIDER <= goal <= MAX_DIVIDER &&
               steps <= StepsFor(Distance(now, goal))
    ensures MIN_DIVIDER <= LivePath(now, goal, steps) <= MAX_DIVIDER
    ensures Distance(LivePath(now, goal, steps), goal)
         == if steps * STEP_DIVIDERS < Distance(now, goal) then Distance(now, goal) - steps * STEP_DIVIDERS else 0
    ensures LivePath(now, goal, steps) == goal <==> steps == StepsFor(Distance(now, goal))
  {
    if steps > 0 {
      LiveRampTakesExactly(now, goal, steps - 1);
    }
  }
}
