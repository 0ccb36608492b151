/** Balanced engine activation: components/asic/bzm_balanced_ramp.c, and the pair sweep of
    components/asic/bzm_bringup.c that drives it. Every call to the hardware is an event of a
    ghost trace and may fail at any time; the claims are about every prefix of every trace.
    First: what the ramp does to the hardware, as a trace, and what a trace must never show. */
module RampTrace {
  import opened Topology
  import opened Telemetry

  const SOFT_RESET := 0x16
  const STATUS := 0x00
  const CONFIG := 0x01
  const ENGINE_CONFIG: nat := 0x04
  const BUSY_MASK: bv8 := 0x01
  const CONFIG_WRITABLE_MASK: bv8 := 0x67
  const CONFIG_ALLOWED_MASK: bv8 := 0x77

  datatype Target = Control | At(location: Location)

  datatype Stats = Stats(discarded: nat, unexpectedHeaders: nat, dropped: nat, rejected: nat,
                         unmatched: nat, decodeFailures: nat, queued: nat)

  /** `ok` is what the caller is told. A failed write may still have `landed`. */
  datatype Event =
    | Begin(asic: nat, target: Target, ok: bool)
    | Write(asic: nat, target: Target, offset: nat, value: nat, ok: bool, landed: bool)
    | Sentinel(asic: nat, location: Location, ok: bool)
    | Read(asic: nat, location: Location, ok: bool, status: bv8, config: bv8)
    | Delay(ms: nat)
    | Sampled(asic: nat, ok: bool, sample: Sample)
    | StatsRead(ok: bool, stats: Stats)
    | Barrier(ok: bool)

  type Trace = seq<Event>

  predicate Busy(status: bv8) {
    status & BUSY_MASK != 0
  }

  predicate LegalConfig(config: bv8) {
    config & CONFIG_WRITABLE_MASK == 0x04 && config & !CONFIG_ALLOWED_MASK == 0
  }

  /** Of all 256 readbacks only two are legal: the written value, with or without the active bit. */
  lemma LegalConfigs(config: bv8)
    ensures LegalConfig(config) <==> config == 0x04 || config == 0x14
  {
  }

  /** The three moments of an activation. */
  datatype Moment = Started | Loaded | Proven

  predicate Marks(e: Event, m: Moment) {
    match m
    case Started => e.Write? && e.target.At? && e.offset == CONFIG && e.landed
    case Loaded => e.Sentinel? && e.ok
    case Proven => e.Read? && e.ok && Busy(e.status) && LegalConfig(e.config)
  }

  function Subject(e: Event, m: Moment): Engine
    requires Marks(e, m)
  {
    var at := match m case Started => e.target.location case Loaded => e.location case Proven => e.location;
    Engine(e.asic, at.stack, at.index)
  }

  /** The engines that reached a moment, in order. */
  function Seen(t: Trace, m: Moment): seq<Engine> {
    if t == [] then []
    else
      var e := t[|t| - 1];
      Seen(t[..|t| - 1], m) + (if Marks(e, m) then [Subject(e, m)] else [])
  }

  function On(s: seq<Engine>, asic: nat): seq<Engine> {
    if s == [] then []
    else On(s[..|s| - 1], asic) + (if s[|s| - 1].asic == asic then [s[|s| - 1]] else [])
  }

  predicate IsReset(e: Event) {
    e.Write? && e.target.Control? && e.offset == SOFT_RESET
  }

  /** The last soft-reset write to an ASIC released its engines. */
  predicate Released(t: Trace, asic: nat) {
    t != [] &&
      var e := t[|t| - 1];
      if IsReset(e) && e.asic == asic then e.value == 1 && e.ok else Released(t[..|t| - 1], asic)
  }

  /** One ASIC's engines in pair order, each pair complete before the next one starts. */
  predicate PairOrdered(s: seq<Engine>) {
    forall i :: 0 <= i < |s| ==> s[i].index == i / 2 && (i % 2 == 1 ==> s[i].stack != s[i - 1].stack)
  }

  /** A pair's two engines on an ASIC, in the order they are started. */
  function Both(asic: nat, index: nat, first: Stack): seq<Engine> {
    [Engine(asic, first, index), Engine(asic, if first == Bottom then Top else Bottom, index)]
  }

  /** None, one or both of a pair's engines started, in an order. */
  predicate Begun(before: seq<Engine>, after: seq<Engine>, asic: nat, index: nat, first: Stack) {
    var both := Both(asic, index, first);
    after == before || after == before + both[..1] || after == before + both
  }

  /** What a commit may leave behind: none, one or both of the pair's engines started, in some order. */
  predicate Attempted(before: seq<Engine>, after: seq<Engine>, asic: nat, index: nat) {
    exists first :: Begun(before, after, asic, index, first)
  }

  /** The engines started after the first `n` are a pair's, of which the one on the stack at the higher voltage,
      or on the bottom when the voltages agree, comes first. */
  predicate HigherFirst(started: seq<Engine>, n: nat, asic: nat, index: nat, sample: Sample) {
    && n < |started| <= n + 2
    && sample.received && sample.valid && sample.ch0.Millivolts? && sample.ch1.Millivolts?
    && (started[n].stack == Bottom <==> sample.ch0.value >= sample.ch1.value)
    && (forall k :: n <= k < |started| ==> started[k].asic == asic && started[k].index == index)
    && (|started| == n + 2 ==> started[n].stack != started[n + 1].stack)
  }

  lemma NothingBegun(started: seq<Engine>, asic: nat, index: nat)
    ensures Attempted(started, started, asic, index)
  {
    assert Begun(started, started, asic, index, Bottom);
  }

  lemma BegunHigherFirst(before: seq<Engine>, after: seq<Engine>, asic: nat, index: nat, sample: Sample)
    requires sample.Usable() && Begun(before, after, asic, index, sample.First()) && |after| > |before|
    ensures HigherFirst(after, |before|, asic, index, sample)
  {
  }

  /** The last thing that happened was that an operation on this target was granted. */
  predicate JustGranted(t: Trace, asic: nat, target: Target) {
    t != [] && t[|t| - 1] == Begin(asic, target, true)
  }

  /** What holds at one instant: engines start one at a time, each proven before the next; each ASIC's go in
      pair order, from a released reset, and each just after it was granted; and a reset, granted too, only
      comes before its ASIC's first. */
  ghost predicate Instant(t: Trace) {
    && Seen(t, Proven) <= Seen(t, Loaded) && Seen(t, Loaded) <= Seen(t, Started)
    && |Seen(t, Started)| <= |Seen(t, Proven)| + 1
    && (forall asic: nat :: PairOrdered(On(Seen(t, Started), asic)))
    && (t != [] ==>
          var p, e := t[..|t| - 1], t[|t| - 1];
          && (Marks(e, Started) ==>
                Released(p, e.asic) && e.value == ENGINE_CONFIG && JustGranted(p, e.asic, e.target))
          && (IsReset(e) ==>
                On(Seen(p, Started), e.asic) == [] && (e.value == 0 ==> JustGranted(p, e.asic, Control))))
  }

  ghost predicate AlwaysSafe(t: Trace) {
    Instant(t) && (t != [] ==> AlwaysSafe(t[..|t| - 1]))
  }

  // ----- Extending a trace by one event -----

  predicate Quiet(e: Event) {
    !Marks(e, Started) && !Marks(e, Loaded) && !Marks(e, Proven) && !IsReset(e)
  }

  lemma Extended(t: Trace, e: Event, m: Moment)
    ensures Seen(t + [e], m) == Seen(t, m) + (if Marks(e, m) then [Subject(e, m)] else [])
    ensures forall asic: nat :: Released(t + [e], asic) ==
              if IsReset(e) && e.asic == asic then e.value == 1 && e.ok else Released(t, asic)
  {
    assert (t + [e])[..|t|] == t;
  }

  lemma OnExtended(s: seq<Engine>, x: Engine, asic: nat)
    ensures On(s + [x], asic) == On(s, asic) + (if x.asic == asic then [x] else [])
  {
    assert (s + [x])[..|s|] == s;
  }

  lemma QuietIsSafe(t: Trace, e: Event)
    requires AlwaysSafe(t) && Quiet(e)
    ensures AlwaysSafe(t + [e])
    ensures forall m: Moment :: Seen(t + [e], m) == Seen(t, m)
    ensures forall asic: nat :: Released(t + [e], asic) == Released(t, asic)
  {
    hide Marks, IsReset, Seen, Released;
    assert (t + [e])[..|t|] == t;
    forall m: Moment
      ensures Seen(t + [e], m) == Seen(t, m)
    {
      Extended(t, e, m);
      assert m == Started || m == Loaded || m == Proven;
    }
    Extended(t, e, Started);
  }

  /** The next engine of an ASIC: the first of a fresh pair, or the other one of a half-done pair. */
  predicate IsNext(s: seq<Engine>, x: Engine) {
    x.index == |s| / 2 && (|s| % 2 == 1 ==> x.stack != s[|s| - 1].stack)
  }

  lemma StartIsSafe(t: Trace, e: Event)
    requires AlwaysSafe(t) && Marks(e, Started) && e.value == ENGINE_CONFIG && Released(t, e.asic)
    requires JustGranted(t, e.asic, e.target)
    requires Seen(t, Proven) == Seen(t, Started)
    requires IsNext(On(Seen(t, Started), e.asic), Subject(e, Started))
    ensures AlwaysSafe(t + [e])
    ensures Seen(t + [e], Started) == Seen(t, Started) + [Subject(e, Started)]
    ensures Seen(t + [e], Loaded) == Seen(t, Loaded) && Seen(t + [e], Proven) == Seen(t, Proven)
    ensures forall asic: nat :: Released(t + [e], asic) == Released(t, asic)
  {
    hide Seen, Released, On;
    assert (t + [e])[..|t|] == t;
    Extended(t, e, Started);
    Extended(t, e, Loaded);
    Extended(t, e, Proven);
    forall asic: nat
      ensures PairOrdered(On(Seen(t + [e], Started), asic))
    {
      OnExtended(Seen(t, Started), Subject(e, Started), asic);
      assert PairOrdered(On(Seen(t, Started), asic));
    }
  }

  lemma LoadIsSafe(t: Trace, e: Event)
    requires AlwaysSafe(t) && Marks(e, Loaded) && Seen(t, Loaded) == Seen(t, Proven)
    requires Seen(t, Started) == Seen(t, Proven) + [Subject(e, Loaded)]
    ensures AlwaysSafe(t + [e])
    ensures Seen(t + [e], Loaded) == Seen(t, Started)
    ensures Seen(t + [e], Started) == Seen(t, Started) && Seen(t + [e], Proven) == Seen(t, Proven)
    ensures forall asic: nat :: Released(t + [e], asic) == Released(t, asic)
  {
    hide Seen, Released, On;
    assert (t + [e])[..|t|] == t;
    Extended(t, e, Started);
    Extended(t, e, Loaded);
    Extended(t, e, Proven);
    assert Seen(t + [e], Started) == Seen(t, Started);
  }

  lemma ProofIsSafe(t: Trace, e: Event)
    requires AlwaysSafe(t) && Marks(e, Proven) && Seen(t, Loaded) == Seen(t, Started)
    requires Seen(t, Started) == Seen(t, Proven) + [Subject(e, Proven)]
    ensures AlwaysSafe(t + [e])
    ensures Seen(t + [e], Proven) == Seen(t, Started)
    ensures Seen(t + [e], Started) == Seen(t, Started) && Seen(t + [e], Loaded) == Seen(t, Loaded)
    ensures forall asic: nat :: Released(t + [e], asic) == Released(t, asic)
  {
    hide Seen, Released, On;
    assert (t + [e])[..|t|] == t;
    Extended(t, e, Started);
    Extended(t, e, Loaded);
    Extended(t, e, Proven);
    assert Seen(t + [e], Started) == Seen(t, Started);
  }

  lemma ResetIsSafe(t: Trace, e: Event)
    requires AlwaysSafe(t) && IsReset(e) && On(Seen(t, Started), e.asic) == []
    requires e.value == 0 ==> JustGranted(t, e.asic, Control)
    ensures AlwaysSafe(t + [e])
    ensures forall m: Moment :: Seen(t + [e], m) == Seen(t, m)
    ensures forall asic: nat ::
              Released(t + [e], asic) == if asic == e.asic then e.value == 1 && e.ok else Released(t, asic)
  {
    hide Seen, Released, On;
    assert (t + [e])[..|t|] == t;
    forall m: Moment
      ensures Seen(t + [e], m) == Seen(t, m)
    {
      Extended(t, e, m);
    }
    Extended(t, e, Started);
  }

  lemma LoadedInBetween(t: Trace)
    requires AlwaysSafe(t) && Seen(t, Proven) == Seen(t, Started)
    ensures Seen(t, Loaded) == Seen(t, Started)
  {
  }

  // ----- What safety means -----

  function InStack(s: seq<Engine>, stack: Stack): nat {
    if s == [] then 0 else InStack(s[..|s| - 1], stack) + (if s[|s| - 1].stack == stack then 1 else 0)
  }

  /** Pair order keeps the two stacks within one engine of each other. */
  lemma {:induction false} PairOrderIsBalanced(s: seq<Engine>)
    requires PairOrdered(s)
    ensures InStack(s, Bottom) + InStack(s, Top) == |s|
    ensures |s| % 2 == 0 ==> InStack(s, Bottom) == InStack(s, Top)
    ensures |s| % 2 == 1 ==> InStack(s, s[|s| - 1].stack) == |s| / 2 + 1
  {
    if |s| > 0 {
      PairOrderIsBalanced(s[..|s| - 1]);
    }
  }

  lemma {:induction false} SafeAt(t: Trace, n: nat)
    requires AlwaysSafe(t) && n <= |t|
    ensures AlwaysSafe(t[..n]) && Instant(t[..n])
    ensures Seen(t[..n], Proven) <= Seen(t[..n], Started)
  {
    hide Seen;
    if n == |t| {
      assert t[..n] == t;
    } else {
      SafeAt(t[..|t| - 1], n);
      assert t[..|t| - 1][..n] == t[..n];
    }
  }

  /** At every instant of a safe trace, each ASIC's running engines are balanced across its stacks. */
  lemma BalancedAtEveryInstant(t: Trace, n: nat, asic: nat)
    requires AlwaysSafe(t) && n <= |t|
    ensures var s := On(Seen(t[..n], Started), asic);
            -1 <= InStack(s, Bottom) - InStack(s, Top) <= 1
  {
    SafeAt(t, n);
    PairOrderIsBalanced(On(Seen(t[..n], Started), asic));
  }

  /** Pair order repeats no engine, and as many engines as an ASIC has are all of them. */
  lemma PairOrderIsExact(s: seq<Engine>, i: nat, j: nat)
    requires PairOrdered(s) && i < j < |s|
    ensures (s[i].stack, s[i].index) != (s[j].stack, s[j].index)
  {
    if s[i].index == s[j].index {
      assert j == i + 1;
    }
  }

  lemma FullPairOrderIsEverything(s: seq<Engine>, stack: Stack, index: nat)
    requires PairOrdered(s) && |s| == ENGINE_COUNT && index < PAIR_COUNT
    ensures exists i :: 0 <= i < |s| && s[i].stack == stack && s[i].index == index
  {
    var i := 2 * index;
    assert s[i + 1].stack != s[i].stack && s[i].index == index && s[i + 1].index == index;
    assert s[if s[i].stack == stack then i else i + 1].stack == stack;
  }
}

/** The ramp object and the sweep that drives it. */
module BalancedRamp {
  import opened Topology
  import opened Telemetry
  import opened RampTrace

  const NO_STATS := Stats(0, 0, 0, 0, 0, 0, 0)

  datatype Kind =
    | NoFailure | Argument | ParserBaseline | TelemetryUnusable | Lease | EngineReset | ConfigWrite | SentinelWrite
    | StatusRead | NotBusy | ConfigReadback | Incomplete | FinalBarrier | ParserFinal

  datatype Failure = Failure(kind: Kind, asic: nat, engine: nat, offset: nat, expected: nat, actual: nat)

  const NO_FAILURE := Failure(NoFailure, 0, 0, 0, 0, 0)
  const CONTROL_ENGINE_ID := 0xfff
  const RESET_DELAY_MS := 1
  const BUSY_POLL_ATTEMPTS := 3
  const BUSY_POLL_DELAY_MS := 1

  /** What a failure on an ASIC is put down to, going by the last thing that was done. */
  function Blame(e: Event): Kind {
    match e
    case Begin(_, _, _) => Lease
    case Write(_, target, _, _, _, _) => if target.Control? then EngineReset else ConfigWrite
    case Sentinel(_, _, _) => SentinelWrite
    case Read(_, _, ok, status, _) => if !ok then StatusRead else if Busy(status) then ConfigReadback else NotBusy
    case Sampled(_, _, _) => TelemetryUnusable
    case StatsRead(_, _) => ParserBaseline
    case Barrier(_) => FinalBarrier
    case Delay(_) => NoFailure
  }

  /** Since `before` the trace has grown by `n` status reads that proved nothing, and has stayed safe. */
  ghost predicate OnlyPolled(before: Trace, after: Trace, n: nat) {
    && AlwaysSafe(after) && before <= after && Polled(before, after, n)
    && (forall m: Moment :: Seen(after, m) == Seen(before, m))
    && forall asic: nat :: Released(after, asic) == Released(before, asic)
  }

  lemma NotYetPolled(t: Trace)
    requires AlwaysSafe(t)
    ensures OnlyPolled(t, t, 0)
  {
    NeverPolled(t);
  }

  lemma OnlyPolledMeans(before: Trace, after: Trace, n: nat)
    requires OnlyPolled(before, after, n)
    ensures AlwaysSafe(after) && before <= after && Polled(before, after, n)
    ensures forall m: Moment :: Seen(after, m) == Seen(before, m)
    ensures forall asic: nat :: Released(after, asic) == Released(before, asic)
  {
  }

  /** One more pause and read that prove nothing. */
  lemma PolledInVain(before: Trace, t: Trace, asic: nat, location: Location, ok: bool, status: bv8, config: bv8, n: nat)
    requires OnlyPolled(before, t, n) && (ok ==> !Busy(status) || !LegalConfig(config))
    ensures OnlyPolled(before, Paused(t, n) + [Read(asic, location, ok, status, config)], n + 1)
  {
    hide AlwaysSafe, Seen, Released, Busy, LegalConfig, Polled;
    var e := Read(asic, location, ok, status, config);
    if n != 0 {
      QuietIsSafe(t, Delay(BUSY_POLL_DELAY_MS));
    }
    QuietIsSafe(Paused(t, n), e);
    PolledOnceMore(before, t, e, n);
  }

  /** One more pause and the read that proves the engine loaded last. */
  lemma PolledToProof(before: Trace, t: Trace, asic: nat, location: Location, status: bv8, config: bv8, n: nat)
    requires OnlyPolled(before, t, n) && Busy(status) && LegalConfig(config)
    requires Seen(before, Loaded) == Seen(before, Started)
    requires Seen(before, Started) == Seen(before, Proven) + [Engine(asic, location.stack, location.index)]
    ensures var after := Paused(t, n) + [Read(asic, location, true, status, config)];
            && AlwaysSafe(after) && before <= after && Polled(before, after, n + 1)
            && Seen(after, Proven) == Seen(before, Started) && Seen(after, Started) == Seen(before, Started)
            && forall a: nat :: Released(after, a) == Released(before, a)
  {
    hide AlwaysSafe, Seen, Released, Busy, LegalConfig, Polled;
    var e := Read(asic, location, true, status, config);
    if n != 0 {
      QuietIsSafe(t, Delay(BUSY_POLL_DELAY_MS));
    }
    ProofIsSafe(Paused(t, n), e);
    PolledOnceMore(before, t, e, n);
  }

  lemma BlameOfRead(asic: nat, engine: Location, ok: bool, status: bv8, config: bv8)
    ensures Blame(Read(asic, engine, ok, status, config)) ==
              if !ok then StatusRead else if Busy(status) then ConfigReadback else NotBusy
  {
  }

  /** Of the status reads a trace ends with, none of the last `n` showed a busy engine. */
  predicate NeverBusy(t: Trace, n: nat) {
    n == 0 ||
    (&& t != [] && t[|t| - 1].Read? && (t[|t| - 1].ok ==> t[|t| - 1].status & 0x01 == 0)
     && (n == 1 || (|t| >= 2 && NeverBusy(t[..|t| - 2], n - 1))))
  }

  /** The last answer is one no commit can go on from: a refusal, a reading that cannot be used, a status that
      was not busy three times running, or a busy engine with another configuration than was written. */
  predicate AtFault(t: Trace)
    requires t != []
  {
    match t[|t| - 1]
    case Begin(_, _, ok) => !ok
    case Write(_, _, _, _, ok, _) => !ok
    case Sentinel(_, _, ok) => !ok
    case Read(_, _, ok, status, config) =>
      NeverBusy(t, 3) || (ok && status & 0x01 != 0 && config != 0x04 && config != 0x14)
    case Sampled(_, ok, s) => !ok || !s.received || !s.valid || s.ch0.NotFinite? || s.ch1.NotFinite?
    case StatsRead(ok, stats) => !ok || stats.queued != 0
    case Barrier(ok) => !ok
    case Delay(_) => false
  }

  lemma NothingBusy(t: Trace)
    ensures NeverBusy(t, 0)
  {
  }

  lemma NotBusyAgain(t: Trace, n: nat, asic: nat, location: Location, ok: bool, status: bv8, config: bv8)
    requires NeverBusy(t, n) && (ok ==> !Busy(status))
    ensures NeverBusy(Paused(t, n) + [Read(asic, location, ok, status, config)], n + 1)
  {
    if n > 0 {
      assert (Paused(t, n) + [Read(asic, location, ok, status, config)])[..|t|] == t;
    }
  }

  lemma MisfitIsAtFault(t: Trace, asic: nat, location: Location, status: bv8, config: bv8)
    requires t != [] && t[|t| - 1] == Read(asic, location, true, status, config)
    requires Busy(status) && !LegalConfig(config)
    ensures AtFault(t)
  {
    hide LegalConfig;
    LegalConfigs(config);
  }

  lemma ThreePollsAreAtFault(t: Trace)
    requires t != [] && NeverBusy(t, BUSY_POLL_ATTEMPTS)
    ensures AtFault(t)
  {
  }

  /** The failure on record names the ASIC and what the last event of the trace could not do, and that event is
      at fault. */
  predicate IsBlamed(failure: Failure, t: Trace, asic: nat) {
    t != [] && failure.asic == asic && failure.kind == Blame(t[|t| - 1]) && AtFault(t)
  }

  /** Between two traces there is nothing but `n` status reads, with a pause before each but the first. */
  predicate Polled(before: Trace, after: Trace, n: nat) {
    if n == 0 then after == before
    else
      && |after| > 0 && after[|after| - 1].Read?
      && (if n == 1 then after[..|after| - 1] == before
          else
            && |after| > 1 && after[|after| - 2] == Delay(BUSY_POLL_DELAY_MS)
            && Polled(before, after[..|after| - 2], n - 1))
  }

  /** Every status read but the first comes after a pause. */
  function Paused(t: Trace, n: nat): Trace {
    if n == 0 then t else t + [Delay(BUSY_POLL_DELAY_MS)]
  }

  lemma NeverPolled(t: Trace)
    ensures Polled(t, t, 0)
  {
  }

  lemma PolledOnceMore(before: Trace, t: Trace, e: Event, n: nat)
    requires Polled(before, t, n) && e.Read?
    ensures Polled(before, Paused(t, n) + [e], n + 1)
  {
    if n > 0 {
      assert (t + [Delay(BUSY_POLL_DELAY_MS)] + [e])[..|t|] == t;
    }
  }

  /** The adapter below the ramp. Nothing is known about its answers. */
  class Ops {
    ghost var trace: Trace

    constructor ()
      ensures trace == []
    {
      trace := [];
    }

    method BeginEngine(asic: nat, target: Target) returns (ok: bool)
      modifies this
      ensures trace == old(trace) + [Begin(asic, target, ok)]
    {
      ok := *;
      trace := trace + [Begin(asic, target, ok)];
    }

    method WriteRegister(asic: nat, target: Target, offset: nat, value: nat) returns (ok: bool, ghost landed: bool)
      modifies this
      ensures ok ==> landed
      ensures trace == old(trace) + [Write(asic, target, offset, value, ok, landed)]
    {
      ok := *;
      landed := *;
      landed := ok || landed;
      trace := trace + [Write(asic, target, offset, value, ok, landed)];
    }

    method ProgramSentinel(asic: nat, location: Location) returns (ok: bool)
      modifies this
      ensures trace == old(trace) + [Sentinel(asic, location, ok)]
    {
      ok := *;
      trace := trace + [Sentinel(asic, location, ok)];
    }

    method ReadStatus(asic: nat, location: Location) returns (ok: bool, status: bv8, config: bv8)
      modifies this
      ensures trace == old(trace) + [Read(asic, location, ok, status, config)]
    {
      ok := *;
      status := *;
      config := *;
      trace := trace + [Read(asic, location, ok, status, config)];
    }

    method DelayMs(ms: nat)
      modifies this
      ensures trace == old(trace) + [Delay(ms)]
    {
      trace := trace + [Delay(ms)];
    }

    method TelemetrySample(asic: nat) returns (ok: bool, sample: Sample)
      modifies this
      ensures trace == old(trace) + [Sampled(asic, ok, sample)]
    {
      ok := *;
      sample := *;
      trace := trace + [Sampled(asic, ok, sample)];
    }

    method ParserStats() returns (ok: bool, stats: Stats)
      modifies this
      ensures trace == old(trace) + [StatsRead(ok, stats)]
    {
      ok := *;
      stats := *;
      trace := trace + [StatsRead(ok, stats)];
    }

    method RunFinalBarrier() returns (ok: bool)
      modifies this
      ensures trace == old(trace) + [Barrier(ok)]
    {
      ok := *;
      trace := trace + [Barrier(ok)];
    }
  }

  function Sum(s: seq<nat>): nat
    requires |s| == ASIC_COUNT
  {
    s[0] + s[1] + s[2] + s[3]
  }

  /** No counter of the parser but its buffer has moved since the baseline, and no result is queued. */
  predicate CleanRelativeTo(baseline: Stats, current: Stats) {
    && current.discarded == baseline.discarded && current.unexpectedHeaders == baseline.unexpectedHeaders
    && current.dropped == baseline.dropped && current.rejected == baseline.rejected
    && current.unmatched == baseline.unmatched && current.decodeFailures == baseline.decodeFailures
    && current.queued == 0
  }

  /** The barrier's two answers: it did not hold, or the parser did not stay clean. */
  ghost predicate BarrierAtFault(before: Trace, after: Trace, baseline: Stats, kind: Kind) {
    || (after == before + [Barrier(false)] && kind == FinalBarrier)
    || (kind == ParserFinal && exists answered, stats ::
          after == before + [Barrier(true), StatsRead(answered, stats)] &&
              !(answered && CleanRelativeTo(baseline, stats)))
  }

  /** Every ASIC runs both engines of each of its completed pairs, and at most `slack` more. */
  ghost predicate Tally(started: seq<Engine>, nextPair: seq<nat>, slack: nat)
    requires |nextPair| == ASIC_COUNT
  {
    forall i :: 0 <= i < ASIC_COUNT ==>
      && nextPair[i] <= PAIR_COUNT
      && 2 * nextPair[i] <= |On(started, WIRE_IDS[i])| <= 2 * nextPair[i] + slack
  }

  lemma TallyOfUnprepared(started: seq<Engine>, nextPair: seq<nat>, i: nat)
    requires i < ASIC_COUNT && |nextPair| == ASIC_COUNT && Tally(started, nextPair, 0) && nextPair[i] == 0
    ensures On(started, WIRE_IDS[i]) == []
  {
  }

  lemma TallyWithSlack(started: seq<Engine>, nextPair: seq<nat>, slack: nat)
    requires |nextPair| == ASIC_COUNT && Tally(started, nextPair, slack) && slack <= 2
    ensures Tally(started, nextPair, 2)
  {
  }

  /** Starting the two engines of a pair in turn keeps pair order and adds one completed pair. */
  lemma TallyOfPair(started: seq<Engine>, nextPair: seq<nat>, i: nat, first: Stack)
    requires i < ASIC_COUNT && |nextPair| == ASIC_COUNT && Tally(started, nextPair, 0) && nextPair[i] < PAIR_COUNT
    ensures var both := Both(WIRE_IDS[i], nextPair[i], first);
            && IsNext(On(started, WIRE_IDS[i]), both[0]) && IsNext(On(started + [both[0]], WIRE_IDS[i]), both[1])
            && Tally(started + [both[0]], nextPair, 2) && Tally(started + [both[0]] + [both[1]], nextPair, 2)
            && Tally(started + [both[0]] + [both[1]], nextPair[i := nextPair[i] + 1], 0)
  {
    hide On;
    var both := Both(WIRE_IDS[i], nextPair[i], first);
    forall j | 0 <= j < ASIC_COUNT
      ensures On(started + [both[0]], WIRE_IDS[j]) == On(started, WIRE_IDS[j]) + (if j == i then [both[0]] else [])
      ensures On(started + [both[0]] + [both[1]], WIRE_IDS[j])
                == On(started, WIRE_IDS[j]) + (if j == i then both else [])
    {
      OnExtended(started, both[0], WIRE_IDS[j]);
      OnExtended(started + [both[0]], both[1], WIRE_IDS[j]);
    }
  }

  class Ramp {
    const ops: Ops
    var nextPair: seq<nat>
    var preparedAsic: seq<bool>
    var completedPairs: nat
    var completedEngines: nat
    var baselineCaptured: bool
    var failed: bool
    var failure: Failure
    var parserBaseline: Stats

    /** Engines that have begun to run on an ASIC, in order. */
    ghost function Running(asic: nat): seq<Engine>
      reads this, ops
    {
      On(Seen(ops.trace, Started), asic)
    }

    /** What every run keeps. The trace is safe at every instant; engines counted are engines
        proven; and while nothing has failed, the counters are exactly what the hardware runs. */
    ghost predicate Valid()
      reads this, ops
    {
      && |nextPair| == ASIC_COUNT && |preparedAsic| == ASIC_COUNT
      && AlwaysSafe(ops.trace)
      && completedEngines == |Seen(ops.trace, Proven)|
      && completedPairs == Sum(nextPair)
      && Tally(Seen(ops.trace, Started), nextPair, if failed then 2 else 0)
      && (baselineCaptured ==> parserBaseline.queued == 0) && (completedPairs > 0 ==> baselineCaptured)
      && (forall i :: 0 <= i < ASIC_COUNT ==>
            && (preparedAsic[i] ==> Released(ops.trace, WIRE_IDS[i]))
            && (!preparedAsic[i] ==> nextPair[i] == 0))
      && (!failed ==>
            && Seen(ops.trace, Proven) == Seen(ops.trace, Started)
            && completedEngines == 2 * completedPairs)
    }

    constructor ()
      ensures Valid() && fresh(ops) && ops.trace == [] && !failed && !baselineCaptured
      ensures nextPair == [0, 0, 0, 0] && completedPairs == 0 && failure == NO_FAILURE
    {
      ops := new Ops();
      nextPair, preparedAsic := [0, 0, 0, 0], [false, false, false, false];
      completedPairs, completedEngines := 0, 0;
      baselineCaptured, failed := false, false;
      failure, parserBaseline := NO_FAILURE, NO_STATS;
    }

    /** The engine counter and the trace agree, and every engine begun is proven. */
    ghost predicate Settled()
      reads this, ops
    {
      && AlwaysSafe(ops.trace)
      && completedEngines == |Seen(ops.trace, Proven)|
      && Seen(ops.trace, Proven) == Seen(ops.trace, Started)
    }

    method Fail(kind: Kind, asic: nat, engine: nat, offset: nat, expected: nat, actual: nat)
      modifies this`failed, this`failure
      ensures failed && failure == Failure(kind, asic, engine, offset, expected, actual)
    {
      failed := true;
      failure := Failure(kind, asic, engine, offset, expected, actual);
    }

    /** Start one engine, load it, and see it busy under a legal configuration; or fail. */
    method ActivateEngine(asic: nat, engine: Location) returns (ok: bool)
      requires !failed && Settled() && Released(ops.trace, asic)
      requires IsNext(Running(asic), Engine(asic, engine.stack, engine.index))
      modifies this`completedEngines, this`failed, this`failure, ops
      ensures AlwaysSafe(ops.trace) && completedEngines == |Seen(ops.trace, Proven)|
      ensures old(ops.trace) <= ops.trace && |ops.trace| > |old(ops.trace)|
      ensures forall a: nat :: Released(ops.trace, a) == old(Released(ops.trace, a))
      ensures ok == !failed && (!ok ==> IsBlamed(failure, ops.trace, asic) && failure.engine == engine.physicalId)
      ensures ok ==>
                && Settled() && completedEngines == old(completedEngines) + 1 && failure == old(failure)
                && Seen(ops.trace, Started)
                    == old(Seen(ops.trace, Started)) + [Engine(asic, engine.stack, engine.index)]
      ensures !ok ==>
                || Seen(ops.trace, Started) == old(Seen(ops.trace, Started))
                || Seen(ops.trace, Started)
                    == old(Seen(ops.trace, Started)) + [Engine(asic, engine.stack, engine.index)]
    {
      hide AlwaysSafe, Seen, Released, On;
      ghost var t := ops.trace;
      LoadedInBetween(t);
      ok := ops.BeginEngine(asic, At(engine));
      QuietIsSafe(t, Begin(asic, At(engine), ok));
      if !ok {
        Fail(Lease, asic, engine.physicalId, 0, 1, 0);
        return;
      }

      t := ops.trace;
      ghost var landed;
      ok, landed := ops.WriteRegister(asic, At(engine), CONFIG, ENGINE_CONFIG);
      ghost var e := Write(asic, At(engine), CONFIG, ENGINE_CONFIG, ok, landed);
      if landed {
        StartIsSafe(t, e);
      } else {
        QuietIsSafe(t, e);
      }
      if !ok {
        Fail(ConfigWrite, asic, engine.physicalId, CONFIG, ENGINE_CONFIG, 0);
        return;
      }

      t := ops.trace;
      ok := ops.ProgramSentinel(asic, engine);
      if !ok {
        QuietIsSafe(t, Sentinel(asic, engine, ok));
        Fail(SentinelWrite, asic, engine.physicalId, 0, 1, 0);
        return;
      }
      LoadIsSafe(t, Sentinel(asic, engine, ok));
      ok := AwaitBusy(asic, engine);
    }

    /** Poll the status of an engine that has just been loaded, at most three times. */
    method AwaitBusy(asic: nat, engine: Location) returns (ok: bool)
      requires !failed && AlwaysSafe(ops.trace) && completedEngines == |Seen(ops.trace, Proven)|
      requires Seen(ops.trace, Loaded) == Seen(ops.trace, Started)
      requires Seen(ops.trace, Started) == Seen(ops.trace, Proven) + [Engine(asic, engine.stack, engine.index)]
      modifies this`completedEngines, this`failed, this`failure, ops
      ensures AlwaysSafe(ops.trace) && completedEngines == |Seen(ops.trace, Proven)|
      ensures old(ops.trace) <= ops.trace
      ensures exists n :: 1 <= n <= 3 && Polled(old(ops.trace), ops.trace, n)
      ensures Seen(ops.trace, Started) == old(Seen(ops.trace, Started))
      ensures forall a: nat :: Released(ops.trace, a) == old(Released(ops.trace, a))
      ensures ok == !failed && (!ok ==> IsBlamed(failure, ops.trace, asic) && failure.engine == engine.physicalId)
      ensures ok ==> Settled() && completedEngines == old(completedEngines) + 1 && failure == old(failure)
    {
      hide AlwaysSafe, Seen, Released, Busy, LegalConfig, Polled, OnlyPolled, Blame, AtFault, NeverBusy;
      NotYetPolled(ops.trace);
      assert NeverBusy(ops.trace, 0) by { NothingBusy(ops.trace); }
      var status, config: bv8 := 0, 0;
      var attempt := 0;
      while attempt < BUSY_POLL_ATTEMPTS
        invariant 0 <= attempt <= BUSY_POLL_ATTEMPTS
        invariant !failed && failure == old(failure) && completedEngines == old(completedEngines)
        invariant attempt == BUSY_POLL_ATTEMPTS ==>
                    ops.trace != [] && Blame(ops.trace[|ops.trace| - 1]) == NotBusy && AtFault(ops.trace)
        invariant OnlyPolled(old(ops.trace), ops.trace, attempt) && NeverBusy(ops.trace, attempt)
      {
        ghost var polled := ops.trace;
        if attempt != 0 {
          ops.DelayMs(BUSY_POLL_DELAY_MS);
        }
        ok, status, config := ops.ReadStatus(asic, engine);
        BlameOfRead(asic, engine, ok, status, config);
        if ok && Busy(status) && LegalConfig(config) {
          PolledToProof(old(ops.trace), polled, asic, engine, status, config, attempt);
        } else {
          PolledInVain(old(ops.trace), polled, asic, engine, ok, status, config, attempt);
          OnlyPolledMeans(old(ops.trace), ops.trace, attempt + 1);
          if ok && Busy(status) {
            MisfitIsAtFault(ops.trace, asic, engine, status, config);
          } else {
            NotBusyAgain(polled, attempt, asic, engine, ok, status, config);
            if attempt + 1 == BUSY_POLL_ATTEMPTS {
              ThreePollsAreAtFault(ops.trace);
            }
          }
        }
        if !ok {
          if attempt + 1 == BUSY_POLL_ATTEMPTS {
            Fail(StatusRead, asic, engine.physicalId, STATUS, 1, 0);
            return false;
          }
        } else if Busy(status) {
          if !LegalConfig(config) {
            Fail(ConfigReadback, asic, engine.physicalId, CONFIG, ENGINE_CONFIG, config as nat);
            return false;
          }
          completedEngines := completedEngines + 1;
          return true;
        }
        attempt := attempt + 1;
      }
      OnlyPolledMeans(old(ops.trace), ops.trace, attempt);
      Fail(NotBusy, asic, engine.physicalId, STATUS, BUSY_MASK as nat, status as nat);
      ok := false;
    }

    /** Reset an ASIC's engines: begin, hold in reset, wait, release, wait. */
    method ResetAsic(asic: nat) returns (ok: bool)
      requires !failed && AlwaysSafe(ops.trace) && Running(asic) == []
      modifies this`failed, this`failure, ops
      ensures AlwaysSafe(ops.trace) && old(ops.trace) <= ops.trace
      ensures forall m: Moment :: Seen(ops.trace, m) == old(Seen(ops.trace, m))
      ensures forall a: nat :: a != asic ==> Released(ops.trace, a) == old(Released(ops.trace, a))
      ensures |ops.trace| > |old(ops.trace)|
      ensures !ok ==> IsBlamed(failure, ops.trace, asic) && failure.engine == CONTROL_ENGINE_ID
      ensures ok == !failed && (ok ==> Released(ops.trace, asic) && failure == old(failure))
    {
      hide AlwaysSafe, Seen, Released, On;
      ghost var t := ops.trace;
      ok := ops.BeginEngine(asic, Control);
      QuietIsSafe(t, Begin(asic, Control, ok));
      if !ok {
        Fail(Lease, asic, CONTROL_ENGINE_ID, SOFT_RESET, 1, 0);
        return;
      }
      ghost var landed;
      t := ops.trace;
      ok, landed := ops.WriteRegister(asic, Control, SOFT_RESET, 0);
      ResetIsSafe(t, Write(asic, Control, SOFT_RESET, 0, ok, landed));
      if !ok {
        Fail(EngineReset, asic, CONTROL_ENGINE_ID, SOFT_RESET, 0, 1);
        return;
      }
      QuietIsSafe(ops.trace, Delay(RESET_DELAY_MS));
      ops.DelayMs(RESET_DELAY_MS);
      t := ops.trace;
      ok, landed := ops.WriteRegister(asic, Control, SOFT_RESET, 1);
      ResetIsSafe(t, Write(asic, Control, SOFT_RESET, 1, ok, landed));
      if !ok {
        Fail(EngineReset, asic, CONTROL_ENGINE_ID, SOFT_RESET, 1, 0);
        return;
      }
      QuietIsSafe(ops.trace, Delay(RESET_DELAY_MS));
      ops.DelayMs(RESET_DELAY_MS);
    }

    /** Reset an ASIC's engines once, before any of them is started. */
    method PrepareAsic(asic: nat, i: nat) returns (ok: bool)
      requires Valid() && !failed && i < ASIC_COUNT && WIRE_IDS[i] == asic
      modifies this`preparedAsic, this`failed, this`failure, ops
      ensures Valid() && old(ops.trace) <= ops.trace
      ensures forall m: Moment :: Seen(ops.trace, m) == old(Seen(ops.trace, m))
      ensures !ok ==> |ops.trace| > |old(ops.trace)|
      ensures !ok ==> IsBlamed(failure, ops.trace, asic) && failure.engine == CONTROL_ENGINE_ID
      ensures ok == !failed && (ok ==> preparedAsic[i] && failure == old(failure))
      ensures old(preparedAsic[i]) ==> ops.trace == old(ops.trace)
    {
      hide AlwaysSafe, Seen, Released, Sum, Tally;
      if preparedAsic[i] {
        return true;
      }
      TallyOfUnprepared(Seen(ops.trace, Started), nextPair, i);
      TallyWithSlack(Seen(ops.trace, Started), nextPair, 0);
      ok := ResetAsic(asic);
      if ok {
        preparedAsic := preparedAsic[i := true];
      }
    }

    /** Capture the parser's counters before the first commit. */
    method CaptureBaseline(asic: nat) returns (ok: bool)
      requires Valid() && !failed
      modifies this`baselineCaptured, this`parserBaseline, this`failed, this`failure, ops
      ensures Valid() && old(ops.trace) <= ops.trace
      ensures forall m: Moment :: Seen(ops.trace, m) == old(Seen(ops.trace, m))
      ensures !ok ==> |ops.trace| > |old(ops.trace)|
      ensures !ok ==> IsBlamed(failure, ops.trace, asic)
      ensures ok == !failed && (ok ==> baselineCaptured && failure == old(failure))
      ensures old(baselineCaptured) ==> ops.trace == old(ops.trace) && parserBaseline == old(parserBaseline) && ok
      ensures ok && !old(baselineCaptured) ==>
                ops.trace == old(ops.trace) + [StatsRead(true, parserBaseline)] && parserBaseline.queued == 0
    {
      hide AlwaysSafe, Seen, Released, Sum, Tally;
      TallyWithSlack(Seen(ops.trace, Started), nextPair, 0);
      if baselineCaptured {
        return true;
      }
      ghost var t := ops.trace;
      ok, parserBaseline := ops.ParserStats();
      QuietIsSafe(t, StatsRead(ok, parserBaseline));
      if !ok || parserBaseline.queued != 0 {
        Fail(ParserBaseline, asic, 0, 0, 0, parserBaseline.queued);
        return false;
      }
      baselineCaptured := true;
    }

    predicate Acceptable(asic: nat, pair: Pair)
      requires |nextPair| == ASIC_COUNT
      reads this
    {
      && AsicIndex(asic) < ASIC_COUNT && pair.index < PAIR_COUNT
      && pair.bottom.stack == Bottom && pair.top.stack == Top
      && pair.bottom.index == pair.index && pair.top.index == pair.index
      && nextPair[AsicIndex(asic)] == pair.index
    }

    /** What comes before the sample: the baseline, once, and the ASIC's reset, once. */
    method GetReady(asic: nat, i: nat) returns (ok: bool)
      requires Valid() && !failed && i < ASIC_COUNT && WIRE_IDS[i] == asic
      modifies this`baselineCaptured, this`parserBaseline, this`preparedAsic, this`failed, this`failure, ops
      ensures Valid() && old(ops.trace) <= ops.trace && ok == !failed
      ensures forall m: Moment :: Seen(ops.trace, m) == old(Seen(ops.trace, m))
      ensures ok ==> preparedAsic[i] && baselineCaptured && failure == old(failure)
      ensures !ok ==> |ops.trace| > |old(ops.trace)| && IsBlamed(failure, ops.trace, asic)
      ensures old(baselineCaptured) ==> parserBaseline == old(parserBaseline)
    {
      hide AlwaysSafe, Seen, Released, Sum, Tally, IsBlamed;
      ok := CaptureBaseline(asic);
      if ok {
        ok := PrepareAsic(asic, i);
      }
    }

    /** Read the ASIC's voltages; they must be there, valid and finite. */
    method ReadVoltages(asic: nat) returns (ok: bool, sample: Sample)
      requires Valid() && !failed
      modifies this`failed, this`failure, ops
      ensures Valid() && ok == !failed
      ensures exists answered ::
                ops.trace == old(ops.trace) + [Sampled(asic, answered, sample)] && (ok <==> answered && sample.Usable())
      ensures forall m: Moment :: Seen(ops.trace, m) == old(Seen(ops.trace, m))
      ensures !ok ==> IsBlamed(failure, ops.trace, asic)
    {
      hide AlwaysSafe, Seen, Released, Sum, Tally;
      TallyWithSlack(Seen(ops.trace, Started), nextPair, 0);
      ghost var t := ops.trace;
      ok, sample := ops.TelemetrySample(asic);
      QuietIsSafe(t, Sampled(asic, ok, sample));
      if !ok || !sample.Usable() {
        Fail(TelemetryUnusable, asic, 0, 0, 1, if sample.valid then 1 else 0);
        ok := false;
      }
    }

    /** Activate one pair, the stack at the higher voltage first. After any failure nothing more is done. */
    method CommitPair(asic: nat, pair: Pair) returns (ok: bool, ghost sample: Sample, ghost at: nat)
      requires Valid()
      modifies this, ops
      ensures Valid() && old(ops.trace) <= ops.trace && ok == !failed
      ensures old(failed) ==> ops.trace == old(ops.trace) && failure == old(failure)
      ensures !old(failed) && !old(Acceptable(asic, pair)) ==>
                failure.kind == Argument && ops.trace == old(ops.trace)
      ensures ok ==>
                && old(!failed && Acceptable(asic, pair)) && baselineCaptured && parserBaseline.queued == 0
                && |old(ops.trace)| <= at < |ops.trace|
                && ops.trace[at] == Sampled(asic, true, sample) && sample.Usable()
                && Seen(ops.trace, Started)
                   == old(Seen(ops.trace, Started)) + Both(asic, pair.index, sample.First())
                && nextPair == old(nextPair)[AsicIndex(asic) := pair.index + 1]
                && completedPairs == old(completedPairs) + 1
      ensures !ok && old(!failed && Acceptable(asic, pair)) ==>
                |ops.trace| > |old(ops.trace)| && IsBlamed(failure, ops.trace, asic)
      ensures !ok ==> nextPair == old(nextPair) && completedPairs == old(completedPairs)
      ensures Attempted(old(Seen(ops.trace, Started)), Seen(ops.trace, Started), asic, pair.index)
      ensures |Seen(ops.trace, Started)| > |old(Seen(ops.trace, Started))| ==>
                && |old(ops.trace)| <= at < |ops.trace| && ops.trace[at] == Sampled(asic, true, sample)
                && Seen(ops.trace[..at], Started) == old(Seen(ops.trace, Started))
                && HigherFirst(Seen(ops.trace, Started), |old(Seen(ops.trace, Started))|, asic, pair.index, sample)
      ensures old(baselineCaptured) ==> parserBaseline == old(parserBaseline)
    {
      hide AlwaysSafe, Seen, Released, Sum, Tally, IsBlamed, Both, Begun, HigherFirst;
      NothingBegun(Seen(ops.trace, Started), asic, pair.index);
      sample, at := NOTHING, 0;
      if failed {
        return false, sample, at;
      }
      if !Acceptable(asic, pair) {
        TallyWithSlack(Seen(ops.trace, Started), nextPair, 0);
        Fail(Argument, asic, pair.bottom.physicalId, 0, 1, 0);
        return false, sample, at;
      }
      var i := AsicIndex(asic);
      ok := GetReady(asic, i);
      if !ok {
        return false, sample, at;
      }
      var read: Sample;
      ghost var t := ops.trace;
      ok, read := ReadVoltages(asic);
      sample, at := read, |t|;
      if !ok {
        return false, sample, at;
      }
      ok := ActivateBoth(asic, i, pair, read.First());
      assert ops.trace[..at] == t;
      if |Seen(ops.trace, Started)| > |Seen(t, Started)| {
        BegunHigherFirst(Seen(t, Started), Seen(ops.trace, Started), asic, pair.index, read);
      }
    }

    /** Start the two engines of a pair one after the other, and count the pair. */
    method ActivateBoth(asic: nat, i: nat, pair: Pair, first: Stack) returns (ok: bool)
      requires Valid() && !failed && i < ASIC_COUNT && WIRE_IDS[i] == asic && preparedAsic[i]
      requires Acceptable(asic, pair) && baselineCaptured
      modifies this`nextPair, this`completedPairs, this`completedEngines, this`failed, this`failure, ops
      ensures Valid() && old(ops.trace) <= ops.trace && ok == !failed
      ensures |ops.trace| > |old(ops.trace)| && (!ok ==> IsBlamed(failure, ops.trace, asic))
      ensures ok ==>
                && Seen(ops.trace, Started) == old(Seen(ops.trace, Started)) + Both(asic, pair.index, first)
                && nextPair == old(nextPair)[i := pair.index + 1] && completedPairs == old(completedPairs) + 1
      ensures !ok ==> nextPair == old(nextPair) && completedPairs == old(completedPairs)
      ensures Begun(old(Seen(ops.trace, Started)), Seen(ops.trace, Started), asic, pair.index, first)
    {
      hide AlwaysSafe, Seen, Released, On, Tally, IsNext;
      ghost var both := Both(asic, pair.index, first);
      ghost var before := Seen(ops.trace, Started);
      TallyOfPair(before, nextPair, i, first);
      TallyWithSlack(before, nextPair, 0);
      var one := if first == Bottom then pair.bottom else pair.top;
      var two := if first == Bottom then pair.top else pair.bottom;
      assert both[0] == Engine(asic, one.stack, one.index) && both[1] == Engine(asic, two.stack, two.index);
      assert before + both[..1] == before + [both[0]];
      ok := ActivateEngine(asic, one);
      if !ok {
        return;
      }
      assert before + both == before + [both[0]] + [both[1]];
      ok := ActivateEngine(asic, two);
      if !ok {
        return;
      }
      nextPair := nextPair[i := nextPair[i] + 1];
      completedPairs := completedPairs + 1;
    }

    /** Take into the baseline the bytes a controlled pause discarded, if nothing else has moved. */
    method AcceptTransitionDiscards(current: Stats) returns (ok: bool)
      requires Valid()
      modifies this`parserBaseline
      ensures Valid()
      ensures ok ==> baselineCaptured && CleanRelativeTo(parserBaseline, current)
      ensures ok <==> && baselineCaptured && old(parserBaseline).discarded <= current.discarded
                      && CleanRelativeTo(old(parserBaseline).(discarded := current.discarded), current)
      ensures parserBaseline == old(parserBaseline) ||
                parserBaseline == old(parserBaseline).(discarded := current.discarded)
      ensures !ok ==> parserBaseline == old(parserBaseline)
    {
      hide AlwaysSafe, Seen, Released, Sum, Tally;
      var b := parserBaseline;
      if !baselineCaptured || current.discarded < b.discarded || current.unexpectedHeaders != b.unexpectedHeaders ||
         current.dropped != b.dropped || current.rejected != b.rejected || current.unmatched != b.unmatched ||
         current.decodeFailures != b.decodeFailures || current.queued != 0
      {
        return false;
      }
      parserBaseline := b.(discarded := current.discarded);
      ok := true;
    }

    /** Nothing short of the whole ramp passes. A call on a failed ramp replaces the failure record. */
    method FinishBarrier(asicCount: nat, pairsPerAsic: nat) returns (ok: bool)
      requires Valid()
      modifies this`failed, this`failure, ops
      ensures Valid() && old(ops.trace) <= ops.trace && ok == !failed
      ensures forall m: Moment :: Seen(ops.trace, m) == old(Seen(ops.trace, m))
      ensures ok ==>
                && Seen(ops.trace, Proven) == Seen(ops.trace, Started)
                && (forall i :: 0 <= i < ASIC_COUNT ==> |Running(WIRE_IDS[i])| == ENGINE_COUNT)
                && exists stats ::
                     && ops.trace == old(ops.trace) + [Barrier(true), StatsRead(true, stats)]
                     && CleanRelativeTo(parserBaseline, stats)
      ensures ok <==>
                && old(!failed) && baselineCaptured && asicCount == ASIC_COUNT && pairsPerAsic == PAIR_COUNT
                && nextPair == [PAIR_COUNT, PAIR_COUNT, PAIR_COUNT, PAIR_COUNT]
                && exists stats ::
                     && ops.trace == old(ops.trace) + [Barrier(true), StatsRead(true, stats)]
                     && CleanRelativeTo(parserBaseline, stats)
      ensures old(failed) ==> failure.kind == Incomplete && ops.trace == old(ops.trace)
      ensures !ok && old(!failed) && baselineCaptured && asicCount == ASIC_COUNT && pairsPerAsic == PAIR_COUNT &&
              nextPair == [PAIR_COUNT, PAIR_COUNT, PAIR_COUNT, PAIR_COUNT] ==>
                BarrierAtFault(old(ops.trace), ops.trace, parserBaseline, failure.kind)
    {
      hide AlwaysSafe, Seen, Released, On;
      TallyWithSlack(Seen(ops.trace, Started), nextPair, if failed then 2 else 0);
      if failed || !baselineCaptured || asicCount != ASIC_COUNT || pairsPerAsic != PAIR_COUNT ||
         completedPairs != ASIC_COUNT * PAIR_COUNT || completedEngines != ASIC_COUNT * ENGINE_COUNT
      {
        Fail(Incomplete, 0, 0, 0, ASIC_COUNT * PAIR_COUNT, completedPairs);
        return false;
      }
      // The per-ASIC count check that follows can reject nothing: none exceeds its share of the total.
      assert forall i :: 0 <= i < ASIC_COUNT ==> nextPair[i] == PAIR_COUNT;
      ghost var t := ops.trace;
      ok := ops.RunFinalBarrier();
      QuietIsSafe(t, Barrier(ok));
      if !ok {
        Fail(FinalBarrier, 0, 0, 0, 1, 0);
        return;
      }
      t := ops.trace;
      var current;
      ok, current := ops.ParserStats();
      QuietIsSafe(t, StatsRead(ok, current));
      assert ops.trace[|ops.trace| - 1] == StatsRead(ok, current);
      if !ok || !CleanRelativeTo(parserBaseline, current) {
        assert ops.trace == old(ops.trace) + [Barrier(true), StatsRead(ok, current)];
        Fail(ParserFinal, 0, 0, 0, 0, if current.queued != 0 then current.queued else 1);
        return false;
      }
      assert ops.trace == old(ops.trace) + [Barrier(true), StatsRead(true, current)];
    }
  }

  /** The pair sweep of the ramp stage: every ASIC commits a pair before any ASIC begins the next. */
  predicate InStep(nextPair: seq<nat>, pair: nat, done: nat)
    requires |nextPair| == ASIC_COUNT
  {
    forall i :: 0 <= i < ASIC_COUNT ==> nextPair[i] == if i < done then pair + 1 else pair
  }

  /** The sweep's order: pair by pair, and within a pair ASIC by ASIC, two engines each. */
  predicate SweepOrdered(s: seq<Engine>) {
    forall k :: 0 <= k < |s| ==>
      && s[k].index == k / 8 && s[k].asic == WIRE_IDS[k / 2 % 4]
      && (k % 2 == 1 ==> s[k].stack != s[k - 1].stack)
  }

  lemma SweepStarts(s: seq<Engine>, after: seq<Engine>, pair: nat, i: nat)
    requires SweepOrdered(s) && |s| == 8 * pair + 2 * i && i < ASIC_COUNT
    requires Attempted(s, after, WIRE_IDS[i], pair)
    ensures SweepOrdered(after)
  {
    var k := |s|;
    assert k / 8 == pair && (k + 1) / 8 == pair;
    assert k / 2 == 4 * pair + i && (k + 1) / 2 == 4 * pair + i && (4 * pair + i) % 4 == i;
    forall n | 0 <= n < |after|
      ensures after[n].index == n / 8 && after[n].asic == WIRE_IDS[n / 2 % 4]
      ensures n % 2 == 1 ==> after[n].stack != after[n - 1].stack
    {
      assert n < k ==> after[n] == s[n];
      assert n < k && n > 0 ==> after[n - 1] == s[n - 1];
    }
  }

  /** How many of the first `n` engines of a sweep are on the ASIC at index `i`. */
  function Share(n: nat, i: nat): nat {
    2 * (n / 8) + (if n % 8 <= 2 * i then 0 else if n % 8 == 2 * i + 1 then 1 else 2)
  }

  lemma ShareOfNone(i: nat)
    ensures Share(0, i) == 0
  {
  }

  lemma ShareStep(n: nat, i: nat)
    requires i < ASIC_COUNT
    ensures Share(n + 1, i) == Share(n, i) + (if n / 2 % 4 == i then 1 else 0)
  {
    var q, r := n / 8, n % 8;
    assert n / 2 == 4 * q + r / 2;
    assert n / 2 % 4 == r / 2;
    if r == 7 {
      assert (n + 1) / 8 == q + 1 && (n + 1) % 8 == 0;
    } else {
      assert (n + 1) / 8 == q && (n + 1) % 8 == r + 1;
    }
  }

  lemma SharesAreEven(n: nat, i: nat, j: nat)
    ensures -1 <= Share(n, i) / 2 - Share(n, j) / 2 <= 1
  {
    var q := n / 8;
    assert q <= Share(n, i) / 2 <= q + 1;
    assert q <= Share(n, j) / 2 <= q + 1;
  }

  lemma {:induction false} SweepShare(s: seq<Engine>, i: nat)
    requires SweepOrdered(s) && i < ASIC_COUNT
    ensures |On(s, WIRE_IDS[i])| == Share(|s|, i)
  {
    hide Share;
    if |s| == 0 {
      assert Share(0, i) == 0 by { ShareOfNone(i); }
    } else {
      var n := |s| - 1;
      SweepShare(s[..n], i);
      ShareStep(n, i);
      assert s[n].asic == WIRE_IDS[n / 2 % 4];
    }
  }

  lemma {:induction false} SeenPrefix(t: Trace, n: nat, m: Moment)
    requires n <= |t|
    ensures Seen(t[..n], m) <= Seen(t, m)
  {
    if n < |t| {
      SeenPrefix(t[..|t| - 1], n, m);
      assert t[..|t| - 1][..n] == t[..n];
    } else {
      assert t[..n] == t;
    }
  }

  /** Pairs an ASIC has completed: both engines proven. */
  function CompletedPairs(t: Trace, i: nat): nat
    requires i < ASIC_COUNT
  {
    |On(Seen(t, Proven), WIRE_IDS[i])| / 2
  }

  lemma SweepPrefix(s: seq<Engine>, longer: seq<Engine>)
    requires s <= longer && SweepOrdered(longer)
    ensures SweepOrdered(s)
  {
  }

  /** At every instant of a sweep no ASIC is more than one completed pair ahead of another. */
  lemma SweepIsEven(t: Trace, n: nat, i: nat, j: nat)
    requires AlwaysSafe(t) && SweepOrdered(Seen(t, Started)) && n <= |t| && i < ASIC_COUNT && j < ASIC_COUNT
    ensures -1 <= CompletedPairs(t[..n], i) - CompletedPairs(t[..n], j) <= 1
  {
    hide AlwaysSafe, Seen, On, Share, SweepOrdered;
    SafeAt(t, n);
    SeenPrefix(t, n, Started);
    SweepPrefix(Seen(t[..n], Started), Seen(t, Started));
    SweepPrefix(Seen(t[..n], Proven), Seen(t[..n], Started));
    SweepShare(Seen(t[..n], Proven), i);
    SweepShare(Seen(t[..n], Proven), j);
    SharesAreEven(|Seen(t[..n], Proven)|, i, j);
  }

  /** A pair of the topology: one engine of each stack, at the pair's own index, and not the same one. */
  predicate PairIsExact(pair: Pair) {
    && pair.bottom.index == pair.index && pair.top.index == pair.index
    && pair.bottom.stack == Bottom && pair.top.stack == Top
    && pair.bottom.physicalId != pair.top.physicalId
  }

  predicate TableIsExact(pairs: seq<Pair>) {
    |pairs| == PAIR_COUNT && forall k :: 0 <= k < PAIR_COUNT ==> pairs[k].index == k && PairIsExact(pairs[k])
  }

  /** What a ramp has started so far is the beginning of a sweep. */
  ghost predicate Swept(ramp: Ramp)
    reads ramp, ramp.ops
  {
    SweepOrdered(Seen(ramp.ops.trace, Started))
  }

  /** A sweep in progress: `done` ASICs have committed the pair it has come to. */
  ghost predicate Sweeping(ramp: Ramp, pair: nat, done: nat)
    reads ramp, ramp.ops
  {
    && !ramp.failed && |ramp.nextPair| == ASIC_COUNT && InStep(ramp.nextPair, pair, done)
    && Swept(ramp) && |Seen(ramp.ops.trace, Started)| == 8 * pair + 2 * done
  }

  lemma FreshIsSweeping(ramp: Ramp)
    requires ramp.ops.trace == [] && !ramp.failed && ramp.nextPair == [0, 0, 0, 0]
    ensures Sweeping(ramp, 0, 0)
  {
  }

  lemma NextPairOfSweep(ramp: Ramp, pair: nat)
    requires Sweeping(ramp, pair, ASIC_COUNT)
    ensures Sweeping(ramp, pair + 1, 0)
  {
    hide Seen;
  }

  /** The adapter's commit: one pair on the ASIC at an index. A sweep goes on, or ends as one. */
  method CommitNext(ramp: Ramp, i: nat, pair: Pair, ghost sweeping: bool) returns (ok: bool)
    requires ramp.Valid() && i < ASIC_COUNT
    requires sweeping ==> Sweeping(ramp, pair.index, i)
    modifies ramp, ramp.ops
    ensures ramp.Valid() && ok == !ramp.failed
    ensures sweeping ==> Swept(ramp) && (ok ==> Sweeping(ramp, pair.index, i + 1))
    ensures sweeping && !ok && pair.index < PAIR_COUNT && PairIsExact(pair) ==>
              IsBlamed(ramp.failure, ramp.ops.trace, WIRE_IDS[i])
  {
    hide AlwaysSafe, Seen, Ramp.Valid, SweepOrdered, Attempted;
    ghost var before := Seen(ramp.ops.trace, Started);
    ghost var sample, at;
    ok, sample, at := ramp.CommitPair(WIRE_IDS[i], pair);
    if sweeping {
      SweepStarts(before, Seen(ramp.ops.trace, Started), pair.index, i);
    }
  }

  lemma CompletedMeansCaptured(ramp: Ramp)
    requires ramp.Valid()
    ensures |ramp.nextPair| == ASIC_COUNT
    ensures ramp.nextPair == [PAIR_COUNT, PAIR_COUNT, PAIR_COUNT, PAIR_COUNT] ==> ramp.baselineCaptured
  {
    hide AlwaysSafe, Seen;
  }

  /** The adapter's barrier: take in what the last pause discarded, if it can be told, and finish. */
  method PassBarrier(ramp: Ramp) returns (ok: bool)
    requires ramp.Valid()
    modifies ramp, ramp.ops
    ensures ramp.Valid() && ok == !ramp.failed
    ensures forall m: Moment :: Seen(ramp.ops.trace, m) == old(Seen(ramp.ops.trace, m))
    ensures ok ==>
              && Seen(ramp.ops.trace, Proven) == Seen(ramp.ops.trace, Started)
              && forall i :: 0 <= i < ASIC_COUNT ==> |ramp.Running(WIRE_IDS[i])| == ENGINE_COUNT
    ensures !ok && old(!ramp.failed && ramp.nextPair == [PAIR_COUNT, PAIR_COUNT, PAIR_COUNT, PAIR_COUNT]) ==>
              BarrierAtFault(old(ramp.ops.trace), ramp.ops.trace, ramp.parserBaseline, ramp.failure.kind)
  {
    CompletedMeansCaptured(ramp);
    hide AlwaysSafe, Seen, Ramp.Valid;
    var told: bool := *;
    var stats: Stats := *;
    if told {
      var _ := ramp.AcceptTransitionDiscards(stats);
    }
    ok := ramp.FinishBarrier(ASIC_COUNT, PAIR_COUNT);
  }
}
