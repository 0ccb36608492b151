/** The staged power-up of components/asic/bzm_bringup.c. Register access, probing, telemetry and the
    batch hooks are the environment's and may fail at any call. */
module BringupBus {
  import opened Topology
  import opened Telemetry
  import opened BringupReport

  const UNASSIGNED := 0xfa

  const RESULT_CONTROL := 0x00
  const TDM_CONTROL := 0x07
  const SLOW_CLOCK_DIVIDER := 0x08
  const TDM_DELAY := 0x09
  const UART_TX := 0x0a
  const ASIC_ID := 0x0b
  const PLL0_POSTDIV := 0x10
  const PLL0_FEEDBACK := 0x11
  const PLL0_ENABLE := 0x12
  const PLL_STRIDE := 0x0a
  const SENSOR_TDM_GAP := 0x2d
  const DTS_RESET := 0x2e
  const DTS_CONFIG := 0x2f
  const TEMPERATURE_TUNE := 0x30
  const SENSOR_THRESHOLDS := 0x3c
  const SENSOR_CLOCK := 0x3d
  const VSENSOR_RESET := 0x3e
  const VSENSOR_CONFIG := 0x3f
  const VSENSOR_CONTROL := 0x40
  const BANDGAP := 0x45
  const DRIVE_STRENGTH := 0x51
  const DLL0_CONTROL := 0x59
  const DLL1_CONTROL := 0x61

  const ENABLED := 0
  const DISABLED := 1

  datatype Probe = Response | NoResponse | ProbeError

  /** Which optional operations the adapter supplies. */
  datatype Capabilities = Capabilities(probe: bool, delay: bool, telemetry: bool, ramp: bool)

  /** A numbered ASIC takes what is written to its number or to all; the default address reaches only
      those that have no number yet. */
  predicate Reaches(to: nat, asic: nat) {
    to == asic || to == ALL
  }

  /** The traffic control word of the reference profile with traffic off. */
  const TRAFFIC_OFF_WORD := 0x7f * 0x200 + 100 * 2

  predicate IsDivider(register: nat) {
    register in {PLL0_POSTDIV, PLL0_FEEDBACK, PLL0_POSTDIV + PLL_STRIDE, PLL0_FEEDBACK + PLL_STRIDE}
  }

  predicate IsEnable(register: nat) {
    register == PLL0_ENABLE || register == PLL0_ENABLE + PLL_STRIDE
  }

  /** The enable register of the PLL a divider belongs to. */
  function EnableOf(divider: nat): nat {
    if divider < PLL0_ENABLE then PLL0_ENABLE else PLL0_ENABLE + PLL_STRIDE
  }

  /** What was asked, and what came back. */
  datatype Answer =
    | Wrote(to: nat, register: nat, value: nat, ok: bool)
    | Got(asic: nat, register: nat, ok: bool, value: nat)
    | Heard(probe: Probe)
    | Shot(ok: bool, store: seq<Sample>)
    | Hooked(ok: bool)
  {
    /** The transport failed: not what was said, but that nothing came through. */
    predicate Failed() {
      match this
      case Wrote(_, _, _, ok) => !ok
      case Got(_, _, ok, _) => !ok
      case Heard(probe) => probe == ProbeError
      case Shot(ok, _) => !ok
      case Hooked(_) => false
    }
  }

  /** A probe's answer, and how many acts there had been by then. */
  datatype Probed = Probed(answer: Probe, acts: nat)

  /** A time that was read, and how many acts, pair commits and snapshots there had been by then. */
  datatype Reading = Reading(time: nat, acts: nat, commits: nat, shots: nat)

  /** For each ASIC and register, a value read back. */
  type Readbacks = map<(nat, nat), nat>

  predicate Shows(m: Readbacks, asic: nat, register: nat, value: nat) {
    (asic, register) in m && m[(asic, register)] == value
  }

  /** Every ASIC has confirmed that its traffic is off. */
  predicate TrafficOffShown(m: Readbacks) {
    forall i :: 0 <= i < ASIC_COUNT ==> Shows(m, WIRE_IDS[i], TDM_CONTROL, TRAFFIC_OFF_WORD)
  }

  /** What has been read back is no longer known of the registers a write reaches. */
  function Forgotten(m: Readbacks, to: nat, register: nat): (left: Readbacks)
    ensures forall k :: k in left <==> k in m && !(Reaches(to, k.0) && register == k.1)
    ensures forall k :: k in left ==> left[k] == m[k]
  {
    map k | k in m && !(Reaches(to, k.0) && register == k.1) :: m[k]
  }

  /** The enable registers whose last write turned their PLL off, after one more write. */
  function Disabled(disabled: set<(nat, nat)>, to: nat, register: nat, off: bool): set<(nat, nat)> {
    if !IsEnable(register) then disabled
    else if off then disabled + {(to, register)}
    else disabled - (set k | k in disabled && Reaches(to, k.0) && k.1 == register)
  }

  /** To set a divider is rash while some ASIC has not confirmed that its traffic is off, or while the divider's
      PLL has not been turned off. */
  predicate IsRash(m: Readbacks, disabled: set<(nat, nat)>, to: nat, register: nat) {
    IsDivider(register) && !(TrafficOffShown(m) && (to, EnableOf(register)) in disabled)
  }

  /** The adapter, and a record of what may be concluded from its answers. */
  class Bus {
    const can: Capabilities
    /** What each ASIC reports over time. The transport takes in frames and snapshots under one lock, so
        a snapshot never shows two contents for one ASIC and time. */
    const reports: Reports
    /** What has been read back of each register since it was last written to. */
    ghost var proven: Readbacks
    /** What had been read back when traffic was last started for all ASICs. */
    ghost var provenAtStart: Readbacks
    /** Unsolicited traffic was turned off for all ASICs and not turned on again. */
    ghost var quiet: bool
    /** Register reads made while traffic was not off. */
    ghost var loudReads: nat
    /** Writes that open result reporting while the ramp was not verified. */
    ghost var earlyEnables: nat
    /** Pair commits made while some ASIC's reporting was not proven disabled. */
    ghost var openCommits: nat
    /** All pair commits made. */
    ghost var commits: nat
    /** Everything done to the hardware: register writes, batch hooks and pair commits. */
    ghost var acts: nat
    /** Everything that was answered, in order. */
    ghost var answers: seq<Answer>
    /** Every probe of the chain, every snapshot taken, and every time read. */
    ghost var probes: seq<Probed>
    ghost var shots: seq<seq<Sample>>
    ghost var readings: set<Reading>
    /** Enable registers whose last write turned their PLL off. */
    ghost var disabled: set<(nat, nat)>
    /** Divider writes made while some ASIC had not confirmed quiet, or while the PLL was not off. */
    ghost var rashDividers: nat

    ghost predicate Proven(asic: nat, register: nat, value: nat)
      reads this`proven
    {
      Shows(proven, asic, register, value)
    }

    ghost predicate ReportingDisabled()
      reads this`proven
    {
      forall i :: 0 <= i < ASIC_COUNT ==> Proven(WIRE_IDS[i], RESULT_CONTROL, DISABLED)
    }

    constructor (can: Capabilities, reports: Reports)
      ensures this.can == can && this.reports == reports && proven == map[] && !quiet
      ensures loudReads == 0 && earlyEnables == 0 && openCommits == 0 && rashDividers == 0
    {
      this.can, this.reports := can, reports;
      proven, provenAtStart, quiet := map[], map[], false;
      loudReads, earlyEnables, openCommits, rashDividers := 0, 0, 0, 0;
      acts, commits, probes, shots, readings, disabled, answers := 0, 0, [], [], {}, {}, [];
    }

    /** This time was read after everything done so far. */
    ghost predicate ReadLast(time: nat)
      reads this`readings, this`acts, this`commits
    {
      exists r :: r in readings && r.time == time && r.acts == acts && r.commits == commits
    }

    method Write(to: nat, register: nat, value: nat, ghost rampVerified: bool) returns (ok: bool)
      modifies this`proven, this`provenAtStart, this`quiet, this`earlyEnables
      modifies this`acts, this`disabled, this`rashDividers, this`answers
      ensures answers == old(answers) + [Wrote(to, register, value, ok)]
      ensures acts == old(acts) + 1
      ensures disabled == Disabled(old(disabled), to, register, ok && value == 0)
      ensures rashDividers == old(rashDividers) + if IsRash(old(proven), old(disabled), to, register) then 1 else 0
      ensures forall k :: k in proven <==> k in old(proven) && !(Reaches(to, k.0) && register == k.1)
      ensures forall k :: k in proven ==> proven[k] == old(proven)[k]
      ensures provenAtStart == if to == ALL && register == TDM_CONTROL && value % 2 == 1 then old(proven)
                else old(provenAtStart)
      ensures quiet == if register != TDM_CONTROL then old(quiet) else if to == ALL && ok then value % 2 == 0
                else old(quiet) && value % 2 == 0
      ensures earlyEnables == old(earlyEnables) + if register == RESULT_CONTROL && value == ENABLED && !rampVerified
                then 1 else 0
    {
      hide Disabled, IsRash, Reaches, Forgotten;
      ok := *;
      answers := answers + [Wrote(to, register, value, ok)];
      acts := acts + 1;
      rashDividers := rashDividers + if IsRash(proven, disabled, to, register) then 1 else 0;
      disabled := Disabled(disabled, to, register, ok && value == 0);
      provenAtStart := if to == ALL && register == TDM_CONTROL && value % 2 == 1 then proven else provenAtStart;
      proven := Forgotten(proven, to, register);
      quiet := if register != TDM_CONTROL then quiet else if to == ALL && ok then value % 2 == 0
          else quiet && value % 2 == 0;
      earlyEnables := earlyEnables + if register == RESULT_CONTROL && value == ENABLED && !rampVerified then 1 else 0;
    }

    method Read(asic: nat, register: nat) returns (ok: bool, value: nat)
      modifies this`proven, this`loudReads, this`answers
      ensures answers == old(answers) + [Got(asic, register, ok, value)]
      ensures proven == if ok then old(proven)[(asic, register) := value] else old(proven)
      ensures loudReads == old(loudReads) + if quiet then 0 else 1
    {
      ok := *;
      value := *;
      answers := answers + [Got(asic, register, ok, value)];
      proven := if ok then proven[(asic, register) := value] else proven;
      loudReads := loudReads + if quiet then 0 else 1;
    }

    method ProbeChain() returns (answer: Probe)
      modifies this`probes, this`answers
      ensures answers == old(answers) + [Heard(answer)]
      ensures probes == old(probes) + [Probed(answer, acts)]
    {
      answer := *;
      answers := answers + [Heard(answer)];
      probes := probes + [Probed(answer, acts)];
    }

    method Now() returns (time: nat)
      modifies this`readings
      ensures readings == old(readings) + {Reading(time, acts, commits, |shots|)}
    {
      time := *;
      readings := readings + {Reading(time, acts, commits, |shots|)};
    }

    method Snapshot() returns (ok: bool, store: seq<Sample>)
      modifies this`shots, this`answers
      ensures answers == old(answers) + [Shot(ok, store)]
      ensures IsStore(store, reports) && shots == old(shots) + [store]
    {
      ok := *;
      store := [];
      while |store| < ASIC_COUNT
        modifies {}
        invariant |store| <= ASIC_COUNT
        invariant forall i :: 0 <= i < |store| && store[i].received ==> store[i] == reports(i, store[i].timestamp)
      {
        var time: nat := *;
        var sample := reports(|store|, time);
        store := store + [if sample.received && sample.timestamp == time then sample else NOTHING];
      }
      shots := shots + [store];
      answers := answers + [Shot(ok, store)];
    }

    method Hook() returns (ok: bool)
      modifies this`acts, this`answers
      ensures answers == old(answers) + [Hooked(ok)]
      ensures acts == old(acts) + 1
    {
      ok := *;
      answers := answers + [Hooked(ok)];
      acts := acts + 1;
    }

    /** Take note of a pair commit about to be made. */
    ghost method NoteCommit()
      modifies this`openCommits, this`commits, this`acts
      ensures openCommits == old(openCommits) + if ReportingDisabled() then 0 else 1
      ensures commits == old(commits) + 1 && acts == old(acts) + 1
    {
      acts := acts + 1;
      openCommits := openCommits + if ReportingDisabled() then 0 else 1;
      commits := commits + 1;
    }
  }
}

module Bringup {
  import opened Topology
  import opened Telemetry
  import opened BringupReport
  import opened BringupBus
  import opened Options
  import PllBus
  import LiveClock
  import Frequency
  import RampTrace
  import BalancedRamp

  const CHAIN_ATTEMPTS := 5
  const ACQUIRE_ATTEMPTS := 5
  const FRAME_BIT_PERIODS := 100
  const LAST_ASIC_ID := 0x28
  const FIRST_ASIC_ID := 0x0a

  const GOOD := Report(Good, NoReason, LAST_ASIC_ID, ASIC_COUNT)

  datatype Policy = Policy(maxAge: nat, confirmations: nat, boundsAreValid: bool)
  {
    predicate IsValid() {
      maxAge != 0 && 0 < confirmations <= MAX_CONFIRMATIONS && boundsAreValid
    }
  }

  datatype Setting = Setting(register: nat, value: nat)

  /** Settings of different registers. */
  predicate Distinct(settings: seq<Setting>) {
    forall i, j :: 0 <= i < j < |settings| ==> settings[i].register != settings[j].register
  }

  predicate Names(settings: seq<Setting>, register: nat) {
    exists i :: 0 <= i < |settings| && settings[i].register == register
  }

  /** What was proven of other ASICs, and of other registers of this one, still is and nothing more. */
  ghost predicate KeepsOthers(before: Readbacks, after: Readbacks, asic: nat, settings: seq<Setting>) {
    forall k: (nat, nat) :: k.0 != asic || !Names(settings, k.1) ==>
      (k in after <==> k in before) && (k in after ==> after[k] == before[k])
  }

  /** Nothing changed for any ASIC but this one. */
  ghost predicate OnlyTouches(before: Readbacks, after: Readbacks, asic: nat) {
    forall k: (nat, nat) :: k.0 != asic ==> (k in after <==> k in before) && (k in after ==> after[k] == before[k])
  }

  lemma KeepsMeansTouches(before: Readbacks, after: Readbacks, asic: nat, settings: seq<Setting>)
    requires KeepsOthers(before, after, asic, settings)
    ensures OnlyTouches(before, after, asic)
  {
  }

  lemma TouchesTwice(one: Readbacks, two: Readbacks, three: Readbacks, asic: nat)
    requires OnlyTouches(one, two, asic) && OnlyTouches(two, three, asic)
    ensures OnlyTouches(one, three, asic)
  {
    forall k: (nat, nat) | k.0 != asic
      ensures (k in three <==> k in one) && (k in three ==> three[k] == one[k])
    {
      assert k in two <==> k in one;
      assert k in three <==> k in two;
    }
  }

  predicate Disjoint(a: seq<Setting>, b: seq<Setting>) {
    forall i, j :: 0 <= i < |a| && 0 <= j < |b| ==> a[i].register != b[j].register
  }

  /** What is shown of some registers stays shown while others are touched. */
  lemma StaysShown(before: Readbacks, after: Readbacks, asic: nat, shown: seq<Setting>, touched: seq<Setting>)
    requires AllShown(before, asic, shown) && KeepsOthers(before, after, asic, touched) && Disjoint(shown, touched)
    ensures AllShown(after, asic, shown)
  {
    forall i | 0 <= i < |shown|
      ensures Shows(after, asic, shown[i].register, shown[i].value)
    {
      assert !Names(touched, shown[i].register);
      assert Shows(before, asic, shown[i].register, shown[i].value);
      assert (asic, shown[i].register).1 == shown[i].register;
    }
  }

  /** None of the settings turns traffic on. */
  predicate StaysQuiet(settings: seq<Setting>) {
    forall i :: 0 <= i < |settings| ==> settings[i].register == TDM_CONTROL ==> settings[i].value % 2 == 0
  }

  /** None of the settings opens result reporting. */
  predicate StaysClosed(settings: seq<Setting>) {
    forall i :: 0 <= i < |settings| ==> settings[i].register == RESULT_CONTROL ==> settings[i].value != ENABLED
  }

  predicate NoDividers(settings: seq<Setting>) {
    forall i :: 0 <= i < |settings| ==> !IsDivider(settings[i].register)
  }

  /** Dividers may be set when every ASIC has confirmed quiet and both PLLs of this one are off, and the
      settings change neither. */
  predicate MaySetDividers(m: Readbacks, disabled: set<(nat, nat)>, asic: nat, settings: seq<Setting>) {
    && TrafficOffShown(m) && !Names(settings, TDM_CONTROL)
    && (forall i :: 0 <= i < |settings| ==> !IsEnable(settings[i].register))
    && (asic, PLL0_ENABLE) in disabled && (asic, PLL0_ENABLE + PLL_STRIDE) in disabled
  }

  /** Touching other registers of one ASIC leaves every ASIC's confirmation standing. */
  lemma TrafficStaysOff(before: Readbacks, after: Readbacks, asic: nat, settings: seq<Setting>)
    requires TrafficOffShown(before) && KeepsOthers(before, after, asic, settings) && !Names(settings, TDM_CONTROL)
    ensures TrafficOffShown(after)
  {
    forall i | 0 <= i < ASIC_COUNT
      ensures Shows(after, WIRE_IDS[i], TDM_CONTROL, TRAFFIC_OFF_WORD)
    {
      assert Shows(before, WIRE_IDS[i], TDM_CONTROL, TRAFFIC_OFF_WORD);
      assert (WIRE_IDS[i], TDM_CONTROL).1 == TDM_CONTROL;
    }
  }

  /** All of an ASIC's settings have been read back. */
  predicate AllShown(m: Readbacks, asic: nat, settings: seq<Setting>) {
    forall i :: 0 <= i < |settings| ==> Shows(m, asic, settings[i].register, settings[i].value)
  }

  // ----- When a stage may fail -----

  /** A register of an ASIC was read back as something else than one of these settings says. */
  predicate Differs(answer: Answer, asic: nat, wanted: seq<Setting>) {
    && answer.Got? && answer.ok && answer.asic == asic
    && exists k :: 0 <= k < |wanted| && wanted[k].register == answer.register && wanted[k].value != answer.value
  }

  /** In none of the last rounds did both of an ASIC's PLLs show both lock bits. */
  predicate NeverLocked(answers: seq<Answer>, asic: nat, rounds: nat) {
    rounds == 0 ||
    (&& |answers| >= 2 && NeverLocked(answers[..|answers| - 2], asic, rounds - 1)
     && IsLockRead(answers[|answers| - 2], asic, PLL0_ENABLE)
     && IsLockRead(answers[|answers| - 1], asic, PLL0_ENABLE + PLL_STRIDE)
     && !(HasLock(answers[|answers| - 2].value) && HasLock(answers[|answers| - 1].value)))
  }

  lemma NeverLockedYet(answers: seq<Answer>, asic: nat)
    ensures NeverLocked(answers, asic, 0)
  {
  }

  lemma NeverLockedAgain(answers: seq<Answer>, more: seq<Answer>, asic: nat, rounds: nat, value0: nat, value1: nat)
    requires NeverLocked(answers, asic, rounds) && !(PllBus.Locked(value0) && PllBus.Locked(value1))
    requires more == answers + [Got(asic, PLL0_ENABLE, true, value0)] +
                       [Got(asic, PLL0_ENABLE + PLL_STRIDE, true, value1)]
    ensures NeverLocked(more, asic, rounds + 1)
  {
    assert more[..|more| - 2] == answers;
  }

  predicate IsLockRead(answer: Answer, asic: nat, register: nat) {
    answer.Got? && answer.ok && answer.asic == asic && answer.register == register
  }

  predicate HasLock(value: nat) {
    value % 2 == 1 && value / 4 % 2 == 1
  }

  /** The last answers are ones a stage cannot go on from, and the report says which: nothing came through, or
      what came was not what must be. */
  predicate Deserved(answers: seq<Answer>, report: Report, wanted: seq<Setting>, rounds: nat) {
    && answers != []
    && var last := answers[|answers| - 1];
       match report.reason
       case Io => last.Failed()
       case RegisterReadback => Differs(last, report.asic, wanted)
       case PllUnlocked => NeverLocked(answers, report.asic, rounds)
       case ChainMissing =>
         |answers| >= 5 && forall k :: |answers| - 5 <= k < |answers| ==> answers[k] == Heard(NoResponse)
       case ChainExtraAsic => last == Heard(Response)
       case ChainIdMismatch => Differs(last, report.asic, [Setting(ASIC_ID, report.asic + 0x100)])
       case BalancedBatch => last == Hooked(false)
       case _ => false
  }

  lemma NothingCameThrough(answers: seq<Answer>, report: Report, wanted: seq<Setting>, rounds: nat)
    requires report.reason == Io && Deserved(answers, report, [], 0)
    ensures Deserved(answers, report, wanted, rounds)
  {
  }

  lemma AnswerFailed(answers: seq<Answer>, report: Report, wanted: seq<Setting>, rounds: nat)
    requires report.reason == Io && answers != [] && answers[|answers| - 1].Failed()
    ensures Deserved(answers, report, wanted, rounds)
  {
  }

  /** Only a divider can be set rashly. */
  lemma NotRash()
    ensures forall m, disabled, to, register :: !IsDivider(register) ==> !IsRash(m, disabled, to, register)
  {
  }

  lemma DeservedWider(answers: seq<Answer>, report: Report, part: seq<Setting>, whole: seq<Setting>, rounds: nat,
                      rounds': nat)
    requires Deserved(answers, report, part, rounds) && (report.reason == PllUnlocked ==> rounds == rounds')
    requires forall k :: 0 <= k < |part| ==> part[k] in whole
    ensures Deserved(answers, report, whole, rounds')
  {
    hide NeverLocked;
    if report.reason == RegisterReadback {
      var last := answers[|answers| - 1];
      var k :| 0 <= k < |part| && part[k].register == last.register && part[k].value != last.value;
      assert part[k] in whole;
    }
  }

  method WriteAll(bus: Bus, asic: nat, settings: seq<Setting>, completed: nat, ghost rampVerified: bool)
    returns (report: Report)
    requires asic in WIRE_IDS
    modifies bus`proven, bus`provenAtStart, bus`quiet, bus`earlyEnables
    modifies bus`acts, bus`answers, bus`disabled, bus`rashDividers
    ensures report.outcome == Good || (report.outcome == Bad && report.reason == Io)
    ensures report.outcome == Bad ==> report.asic == asic && report.completed == completed
    ensures report.outcome == Bad ==> Deserved(bus.answers, report, settings, 0) && Deserved(bus.answers, report, [], 0)
    ensures old(bus.answers) <= bus.answers
    ensures KeepsOthers(old(bus.proven), bus.proven, asic, settings) && bus.provenAtStart == old(bus.provenAtStart)
    ensures StaysQuiet(settings) ==> bus.quiet == old(bus.quiet)
    ensures NoDividers(settings) || MaySetDividers(old(bus.proven), old(bus.disabled), asic, settings) ==>
              bus.rashDividers == old(bus.rashDividers)
    ensures (forall i :: 0 <= i < |settings| ==> IsEnable(settings[i].register) && settings[i].value == 0) &&
            report.outcome == Good ==>
              forall i :: 0 <= i < |settings| ==> (asic, settings[i].register) in bus.disabled
    ensures rampVerified || StaysClosed(settings) ==> bus.earlyEnables == old(bus.earlyEnables)
  {
    var i := 0;
    while i < |settings|
      invariant 0 <= i <= |settings|
      invariant KeepsOthers(old(bus.proven), bus.proven, asic, settings) && bus.provenAtStart == old(bus.provenAtStart)
      invariant old(bus.answers) <= bus.answers
      invariant StaysQuiet(settings) ==> bus.quiet == old(bus.quiet)
      invariant MaySetDividers(old(bus.proven), old(bus.disabled), asic, settings) ==>
                  MaySetDividers(bus.proven, bus.disabled, asic, settings)
      invariant NoDividers(settings) || MaySetDividers(old(bus.proven), old(bus.disabled), asic, settings) ==>
                  bus.rashDividers == old(bus.rashDividers)
      invariant (forall k :: 0 <= k < |settings| ==> IsEnable(settings[k].register) && settings[k].value == 0) ==>
                  forall k :: 0 <= k < i ==> (asic, settings[k].register) in bus.disabled
      invariant rampVerified || StaysClosed(settings) ==> bus.earlyEnables == old(bus.earlyEnables)
    {
      var ok := bus.Write(asic, settings[i].register, settings[i].value, rampVerified);
      if !ok {
        return Report(Bad, Io, asic, completed);
      }
      i := i + 1;
    }
    report := GOOD;
  }

  /** Read settings back; different registers, so that what is read first stays read. */
  method ReadAll(bus: Bus, asic: nat, settings: seq<Setting>, completed: nat) returns (report: Report)
    requires Distinct(settings) && asic in WIRE_IDS
    modifies bus`proven, bus`loudReads, bus`answers
    ensures report.outcome == Good ==> AllShown(bus.proven, asic, settings)
    ensures report.outcome == Good || (report.outcome == Bad && report.reason in {Io, RegisterReadback})
    ensures report.outcome == Bad ==> report.asic == asic && report.completed == completed
    ensures report.outcome == Bad ==> Deserved(bus.answers, report, settings, 0)
    ensures old(bus.answers) <= bus.answers
    ensures KeepsOthers(old(bus.proven), bus.proven, asic, settings)
    ensures bus.quiet ==> bus.loudReads == old(bus.loudReads)
  {
    var i := 0;
    while i < |settings|
      invariant 0 <= i <= |settings|
      invariant AllShown(bus.proven, asic, settings[..i])
      invariant KeepsOthers(old(bus.proven), bus.proven, asic, settings)
      invariant old(bus.answers) <= bus.answers
      invariant bus.quiet ==> bus.loudReads == old(bus.loudReads)
    {
      var ok, actual := bus.Read(asic, settings[i].register);
      if !ok {
        return Report(Bad, Io, asic, completed);
      }
      if actual != settings[i].value {
        return Report(Bad, RegisterReadback, asic, completed);
      }
      i := i + 1;
    }
    report := GOOD;
  }

  /** Write every setting to one ASIC, then read every one back. */
  method WriteAndVerify(bus: Bus, asic: nat, settings: seq<Setting>, completed: nat, ghost rampVerified: bool)
    returns (report: Report)
    requires Distinct(settings) && asic in WIRE_IDS
    modifies bus`proven, bus`provenAtStart, bus`quiet, bus`loudReads, bus`earlyEnables
    modifies bus`acts, bus`answers, bus`disabled, bus`rashDividers
    ensures report.outcome == Good ==> AllShown(bus.proven, asic, settings)
    ensures report.outcome == Good || (report.outcome == Bad && report.reason in {Io, RegisterReadback})
    ensures report.outcome == Bad ==> report.asic == asic && report.completed == completed
    ensures report.outcome == Bad ==> Deserved(bus.answers, report, settings, 0)
    ensures old(bus.answers) <= bus.answers
    ensures KeepsOthers(old(bus.proven), bus.proven, asic, settings) && bus.provenAtStart == old(bus.provenAtStart)
    ensures StaysQuiet(settings) ==> bus.quiet == old(bus.quiet)
    ensures NoDividers(settings) ==> bus.rashDividers == old(bus.rashDividers)
    ensures StaysQuiet(settings) && old(bus.quiet) ==> bus.loudReads == old(bus.loudReads)
    ensures rampVerified || StaysClosed(settings) ==> bus.earlyEnables == old(bus.earlyEnables)
  {
    hide Deserved;
    report := WriteAll(bus, asic, settings, completed, rampVerified);
    if report.outcome == Good {
      report := ReadAll(bus, asic, settings, completed);
    }
  }

  // ----- Telemetry -----

  /** Every ASIC has reported since the configuration. */
  predicate AllReported(store: seq<Sample>, configured: nat) {
    forall i :: 0 <= i < |store| ==> store[i].received && configured <= store[i].timestamp
  }

  predicate AllPass(store: seq<Sample>, now: nat, configured: nat, policy: Policy, locks: bool) {
    forall i :: 0 <= i < |store| ==> store[i].Passes(now, configured, policy.maxAge, locks)
  }

  /** What a good verdict rests on: all four samples pass at the time they are judged, and are sound. */
  predicate Accepted(store: seq<Sample>, now: nat, configured: nat, policy: Policy, locks: bool) {
    && |store| == ASIC_COUNT && AllPass(store, now, configured, policy, locks)
    && forall i :: 0 <= i < ASIC_COUNT ==> store[i].Sound(locks)
  }

  method VerifySnapshot(store: seq<Sample>, now: nat, configured: nat, policy: Policy, locks: bool)
    returns (report: Report)
    requires |store| == ASIC_COUNT
    ensures report.outcome == Good <==> AllPass(store, now, configured, policy, locks)
    ensures report.outcome != Good ==> report.outcome == Bad && report.asic in WIRE_IDS && IsTelemetry(report.reason)
    ensures report.outcome == Good ==> report == GOOD
    ensures report.outcome != Good ==>
              var k := report.completed;
              && k < ASIC_COUNT && report.asic == WIRE_IDS[k]
              && (forall i :: 0 <= i < k ==> store[i].Passes(now, configured, policy.maxAge, locks))
              && !store[k].Passes(now, configured, policy.maxAge, locks)
              && (report.reason == TelemetryUnsafe <==>
                  configured <= store[k].timestamp && store[k].Fresh(now, policy.maxAge))
  {
    var i := 0;
    while i < ASIC_COUNT
      invariant 0 <= i <= ASIC_COUNT
      invariant forall j :: 0 <= j < i ==> store[j].Passes(now, configured, policy.maxAge, locks)
    {
      if !store[i].received {
        return Report(Bad, TelemetryMissing, WIRE_IDS[i], i);
      }
      if store[i].timestamp < configured {
        return Report(Bad, TelemetryPreconfig, WIRE_IDS[i], i);
      }
      if !store[i].Fresh(now, policy.maxAge) {
        return Report(Bad, TelemetryStale, WIRE_IDS[i], i);
      }
      if !store[i].clear || (locks && !store[i].locked) {
        return Report(Bad, TelemetryUnsafe, WIRE_IDS[i], i);
      }
      i := i + 1;
    }
    report := GOOD;
  }

  /** A snapshot and the time it was looked at. */
  datatype Look = Look(store: seq<Sample>, now: nat)
  {
    /** The snapshot check passes, or fails first on an ASIC that has only lost its clock lock. */
    predicate IsTolerable(since: nat, policy: Policy, locks: bool) {
      || AllPass(store, now, since, policy, locks)
      || (locks && exists k ::
            && 0 <= k < |store| && OnlyUnlocked(store[k], now, since, policy)
            && forall i :: 0 <= i < k ==> store[i].Passes(now, since, policy.maxAge, true))
    }
  }

  predicate OnlyUnlocked(sample: Sample, now: nat, since: nat, policy: Policy) {
    sample.Passes(now, since, policy.maxAge, false) && !sample.locked && !sample.trip
  }

  ghost predicate AllSized(looks: seq<Look>) {
    forall j :: 0 <= j < |looks| ==> |looks[j].store| == ASIC_COUNT
  }

  /** The time of the sample of an ASIC that was looked at last. */
  function StampAfter(looks: seq<Look>, i: nat): nat {
    if looks == [] || i >= |looks[|looks| - 1].store| then 0 else looks[|looks| - 1].store[i].timestamp
  }

  /** How many new samples in a row an ASIC has sent that were not sound, by the last look. */
  function CountAfter(looks: seq<Look>, i: nat, policy: Policy, locks: bool): nat {
    if looks == [] || i >= |looks[|looks| - 1].store| then 0
    else
      var before, sample := looks[..|looks| - 1], looks[|looks| - 1].store[i];
      if sample.timestamp == StampAfter(before, i) then CountAfter(before, i, policy, locks)
      else sample.Counted(looks[|looks| - 1].now, policy.maxAge, locks, policy.confirmations,
                          CountAfter(before, i, policy, locks))
  }

  /** The last look can be judged: at a real time, tolerable, every sample there and none older than before. */
  predicate IsJudgeable(looks: seq<Look>, since: nat, policy: Policy, locks: bool) {
    && looks != []
    && var last := looks[|looks| - 1];
       && last.now != 0 && last.IsTolerable(since, policy, locks) && |last.store| == ASIC_COUNT
       && Orderly(Stamps(looks[..|looks| - 1]), last.store)
  }

  function Stamps(looks: seq<Look>): seq<nat> {
    seq(ASIC_COUNT, i requires 0 <= i => StampAfter(looks, i))
  }

  function Counts(looks: seq<Look>, policy: Policy, locks: bool): seq<nat> {
    seq(ASIC_COUNT, i requires 0 <= i => CountAfter(looks, i, policy, locks))
  }

  /** Some ASIC has tripped, or sent as many unsound samples in a row as are required to believe it. */
  predicate IsContinuous(looks: seq<Look>, policy: Policy, locks: bool) {
    exists i :: 0 <= i < ASIC_COUNT && CountAfter(looks, i, policy, locks) >= policy.confirmations
  }

  /** The last look has something new, and by it every ASIC's last sample was sound. */
  predicate IsConfirmed(looks: seq<Look>, policy: Policy, locks: bool) {
    && looks != [] && Stamps(looks) != Stamps(looks[..|looks| - 1])
    && forall i :: 0 <= i < ASIC_COUNT ==> CountAfter(looks, i, policy, locks) == 0
  }

  /** The looks so far have decided nothing. */
  predicate IsOpen(looks: seq<Look>, since: nat, policy: Policy, locks: bool) {
    looks == [] ||
    (&& IsOpen(looks[..|looks| - 1], since, policy, locks) && IsJudgeable(looks, since, policy, locks)
     && !IsContinuous(looks, policy, locks) && !IsConfirmed(looks, policy, locks))
  }

  /** The last look settles the matter well. */
  predicate Confirms(looks: seq<Look>, since: nat, policy: Policy, locks: bool) {
    && looks != [] && IsOpen(looks[..|looks| - 1], since, policy, locks)
    && IsJudgeable(looks, since, policy, locks) && IsConfirmed(looks, policy, locks)
    && !IsContinuous(looks, policy, locks)
  }

  /** The last look settles it badly: it cannot be judged, an anomaly is continuous, or there have been enough. */
  predicate Refuses(looks: seq<Look>, since: nat, policy: Policy, locks: bool) {
    && looks != [] && IsOpen(looks[..|looks| - 1], since, policy, locks)
    && (|| !IsJudgeable(looks, since, policy, locks) || IsContinuous(looks, policy, locks)
        || (!IsConfirmed(looks, policy, locks) && |looks| == policy.confirmations * ASIC_COUNT + 1))
  }

  /** The first looks were at the last of at most five snapshots, taken until every ASIC had reported, and each
      further one at a snapshot taken for it. */
  ghost predicate IsAcquired(taken: seq<seq<Sample>>, looks: seq<Look>, since: nat) {
    && 0 < |looks| <= |taken|
    && var skipped := |taken| - |looks|;
       && skipped < 5
       && (forall j :: 0 <= j < skipped ==> !AllReported(taken[j], since))
       && (skipped == 4 || AllReported(taken[skipped], since))
       && forall j :: 0 <= j < |looks| ==> looks[j].store == taken[skipped + j]
  }

  /** A reason found in the samples themselves. */
  predicate IsTelemetry(reason: Reason) {
    reason in {TelemetryMissing, TelemetryPreconfig, TelemetryStale, TelemetryUnsafe}
  }

  /** A look is never both. */
  lemma ConfirmedIsNotRefused(looks: seq<Look>, since: nat, policy: Policy, locks: bool)
    ensures !(Confirms(looks, since, policy, locks) && Refuses(looks, since, policy, locks))
  {
    hide IsOpen, IsJudgeable, IsConfirmed, IsContinuous;
  }

  /** A report that is not good is deserved, by what was answered or by the looks at the samples. */
  predicate IsExcused(answers: seq<Answer>, report: Report, wanted: seq<Setting>, rounds: nat, judged: Judged,
                      policy: Policy, locks: bool)
  {
    || Deserved(answers, report, wanted, rounds)
    || (IsTelemetry(report.reason) && Refuses(judged.looks, judged.since, policy, locks))
  }

  lemma StillExcused(answers: seq<Answer>, report: Report, judged: Judged, policy: Policy)
    ensures IsExcused(answers, report, [], 0, judged, policy, true) ==>
              IsExcused(answers, report, REPORTING_OFF, 0, judged, policy, true)
  {
    hide Refuses, NeverLocked;
  }

  lemma IsDeserved(answers: seq<Answer>, report: Report, wanted: seq<Setting>, rounds: nat, judged: Judged,
                   policy: Policy, locks: bool)
    requires Deserved(answers, report, wanted, rounds)
    ensures IsExcused(answers, report, wanted, rounds, judged, policy, locks)
  {
  }

  lemma ExcusedByLooks(answers: seq<Answer>, report: Report, wanted: seq<Setting>, rounds: nat, judged: Judged,
                       policy: Policy, locks: bool, canPause: bool)
    requires judged.Excuses(report, policy, locks, answers, canPause)
    ensures report.outcome == Bad ==> IsExcused(answers, report, wanted, rounds, judged, policy, locks)
    ensures report.outcome == Blocked ==> !canPause
  {
    hide Refuses;
  }

  /** What was judged: the samples and which snapshot they are, the time it was done, the time they must not be
      older than, and all the looks that were taken. */
  datatype Judged = Judged(store: seq<Sample>, shot: nat, now: nat, since: nat, looks: seq<Look>)
  {
    predicate Accepts(policy: Policy, locks: bool) {
      Accepted(store, now, since, policy, locks)
    }

    /** The samples are a snapshot that was taken, and the time they were judged at was read after it. */
    ghost predicate IsTimed(shots: seq<seq<Sample>>, readings: set<Reading>) {
      && shot < |shots| && shots[shot] == store
      && exists r :: r in readings && r.time == now && r.shots > shot
    }

    /** A report that is not good is deserved by the looks, or nothing came through, or no pause was possible. */
    predicate Excuses(report: Report, policy: Policy, locks: bool, answers: seq<Answer>, canPause: bool) {
      match report.outcome
      case Good => true
      case Blocked => !canPause
      case Bad =>
        || (report.reason == Io && answers != [] && answers[|answers| - 1].Failed())
        || (IsTelemetry(report.reason) && Refuses(looks, since, policy, locks))
    }
  }

  const UNJUDGED := Judged([NOTHING, NOTHING, NOTHING, NOTHING], 0, 0, 0, [])

  lemma TimedLater(judged: Judged, shots: seq<seq<Sample>>, readings: set<Reading>, shots': seq<seq<Sample>>,
                   readings': set<Reading>)
    requires judged.IsTimed(shots, readings) && shots <= shots' && readings <= readings'
    ensures judged.IsTimed(shots', readings')
  {
  }

  lemma NoLookYet(confirmation: Confirmation, since: nat, policy: Policy, locks: bool)
    requires confirmation.stamps == [0, 0, 0, 0] && confirmation.counts == [0, 0, 0, 0]
    ensures IsOpen([], since, policy, locks) && Tracks(confirmation, [], policy, locks)
  {
    assert Stamps([]) == [0, 0, 0, 0] && Counts([], policy, locks) == [0, 0, 0, 0];
  }

  /** The snapshot check and the tolerance for lost locks, in one. */
  lemma Tolerated(look: Look, since: nat, policy: Policy, locks: bool, k: nat)
    requires |look.store| == ASIC_COUNT
    requires k < ASIC_COUNT ==>
               && (forall i :: 0 <= i < k ==> look.store[i].Passes(look.now, since, policy.maxAge, locks))
               && !look.store[k].Passes(look.now, since, policy.maxAge, locks)
    requires k >= ASIC_COUNT ==> AllPass(look.store, look.now, since, policy, locks)
    ensures look.IsTolerable(since, policy, locks) <==>
              k >= ASIC_COUNT || (locks && OnlyUnlocked(look.store[k], look.now, since, policy))
  {
  }

  /** What the confirmation object holds after a look is what the looks amount to. */
  lemma OneMoreLook(looks: seq<Look>, look: Look, policy: Policy, locks: bool, stamps: seq<nat>, counts: seq<nat>)
    requires |look.store| == ASIC_COUNT == |stamps| == |counts|
    requires forall i :: 0 <= i < ASIC_COUNT ==>
               && stamps[i] == look.store[i].timestamp
               && counts[i] == if look.store[i].timestamp == Stamps(looks)[i] then Counts(looks, policy, locks)[i]
                               else look.store[i].Counted(look.now, policy.maxAge, locks, policy.confirmations,
                                                          Counts(looks, policy, locks)[i])
    ensures Stamps(looks + [look]) == stamps && Counts(looks + [look], policy, locks) == counts
    ensures forall i :: 0 <= i < ASIC_COUNT ==> CountAfter(looks + [look], i, policy, locks) == counts[i]
  {
    hide Sample.Counted;
    assert (looks + [look])[..|looks|] == looks;
  }

  /** Take snapshots until every ASIC has reported since the configuration, at most five. */
  method Acquire(bus: Bus, configured: nat) returns (ok: bool, store: seq<Sample>)
    modifies bus`shots, bus`answers
    ensures old(bus.shots) <= bus.shots && IsStore(store, bus.reports)
    ensures bus.answers != [] && (!ok ==> bus.answers[|bus.answers| - 1].Failed())
    ensures ok ==> bus.shots != [] && bus.shots[|bus.shots| - 1] == store
    ensures ok ==> IsAcquired(bus.shots[|old(bus.shots)|..], [Look(store, 0)], configured)
  {
    ok, store := bus.Snapshot();
    if !ok {
      return;
    }
    var attempt := 1;
    while attempt < ACQUIRE_ATTEMPTS && !AllReported(store, configured)
      modifies bus`shots, bus`answers
      invariant 1 <= attempt <= ACQUIRE_ATTEMPTS && IsStore(store, bus.reports) && ok && bus.answers != []
      invariant old(bus.shots) <= bus.shots && |bus.shots| == |old(bus.shots)| + attempt
      invariant bus.shots[|bus.shots| - 1] == store
      invariant forall j :: |old(bus.shots)| <= j < |bus.shots| - 1 ==> !AllReported(bus.shots[j], configured)
    {
      ok, store := bus.Snapshot();
      if !ok {
        return;
      }
      attempt := attempt + 1;
    }
  }

  /** The confirmation object holds what the looks so far amount to. */
  ghost predicate Tracks(confirmation: Confirmation, looks: seq<Look>, policy: Policy, locks: bool)
    reads confirmation
  {
    confirmation.stamps == Stamps(looks) && confirmation.counts == Counts(looks, policy, locks)
  }

  /** Look at a snapshot: the strict check first, then what it adds to the rows of anomalies. */
  method LookOnce(bus: Bus, confirmation: Confirmation, store: seq<Sample>, policy: Policy, configured: nat,
                  locks: bool,
                  ghost looks: seq<Look>)
    returns (done: bool, report: Report, ghost look: Look)
    requires policy.IsValid() && IsStore(store, bus.reports) && confirmation.Valid(bus.reports, locks)
    requires IsOpen(looks, configured, policy, locks) && Tracks(confirmation, looks, policy, locks)
    modifies bus`readings, confirmation
    ensures confirmation.Valid(bus.reports, locks)
    ensures old(bus.readings) <= bus.readings && look.store == store
    ensures Reading(look.now, bus.acts, bus.commits, |bus.shots|) in bus.readings
    ensures done ==> report.outcome == Good || (report.outcome == Bad && IsTelemetry(report.reason))
    ensures done && report.outcome == Good ==>
              && Accepted(store, look.now, configured, policy, locks) && report == GOOD
              && Confirms(looks + [look], configured, policy, locks)
    ensures done && report.outcome == Bad ==> Refuses(looks + [look], configured, policy, locks)
    ensures !done ==>
              && IsOpen(looks + [look], configured, policy, locks) &&
                  Tracks(confirmation, looks + [look], policy, locks)
              && (|looks| == policy.confirmations * ASIC_COUNT ==> Refuses(looks + [look], configured, policy, locks))
  {
    hide IsOpen, Confirms, Refuses, Look.IsTolerable, CountAfter, StampAfter, Stamps, Counts, Sample.Counted;
    var now := bus.Now();
    look := Look(store, now);
    LookSettles(looks, look, configured, policy, locks);
    report := VerifySnapshot(store, now, configured, policy, locks);
    Tolerated(look, configured, policy, locks, if report.outcome == Good then ASIC_COUNT else report.completed);
    if report.outcome != Good {
      var k := report.completed;
      var confirmable := && report.reason == TelemetryUnsafe && locks && !store[k].locked && !store[k].trip
                         && store[k].Passes(now, configured, policy.maxAge, false);
      if !confirmable {
        return true, report, look;
      }
    }
    var verdict := confirmation.Observe(store, now, policy.maxAge, locks, policy.confirmations, bus.reports);
    if verdict != Invalid {
      OneMoreLook(looks, look, policy, locks, confirmation.stamps, confirmation.counts);
    }
    if verdict == Confirmed {
      return true, GOOD, look;
    }
    if verdict == Continuous || verdict == Invalid {
      return true, Report(Bad, TelemetryUnsafe, 0, 0), look;
    }
    done := false;
  }

  /** Look at the snapshot, and at a new one as long as nothing is decided. */
  method Confirm(bus: Bus, policy: Policy, configured: nat, locks: bool, first: seq<Sample>)
    returns (report: Report, ghost judged: Judged)
    requires policy.IsValid() && IsStore(first, bus.reports)
    requires bus.shots != [] && bus.shots[|bus.shots| - 1] == first
    modifies bus`readings, bus`shots, bus`answers
    ensures old(bus.readings) <= bus.readings && old(bus.shots) <= bus.shots && judged.since == configured
    ensures report.outcome == Good ==>
              && judged.Accepts(policy, locks) && judged.IsTimed(bus.shots, bus.readings) && report == GOOD
              && Confirms(judged.looks, configured, policy, locks)
    ensures judged.Excuses(report, policy, locks, bus.answers, bus.can.delay)
    ensures report.reason != Io ==> AreLooked(judged.looks, bus.shots[|old(bus.shots)| - 1..])
  {
    hide IsOpen, Confirms, Refuses, Tracks, Accepted, Confirmation.Valid;
    var store := first;
    var confirmation := new Confirmation(bus.reports, locks);
    var limit := policy.confirmations * ASIC_COUNT;
    var attempt := 0;
    ghost var looks: seq<Look> := [];
    judged := UNJUDGED.(since := configured);
    NoLookYet(confirmation, configured, policy, locks);
    while attempt <= limit
      invariant IsStore(store, bus.reports) && confirmation.Valid(bus.reports, locks) && fresh(confirmation)
      invariant old(bus.readings) <= bus.readings
      invariant old(bus.shots) <= bus.shots && bus.shots[|bus.shots| - 1] == store
      invariant |looks| == attempt <= limit && |bus.shots| == |old(bus.shots)| + attempt
      invariant forall j :: 0 <= j < attempt ==> looks[j].store == bus.shots[|old(bus.shots)| - 1 + j]
      invariant IsOpen(looks, configured, policy, locks) && Tracks(confirmation, looks, policy, locks)
    {
      var done;
      ghost var look;
      done, report, look := LookOnce(bus, confirmation, store, policy, configured, locks, looks);
      looks := looks + [look];
      judged := Judged(store, |bus.shots| - 1, look.now, configured, looks);
      if done {
        return;
      }
      if !bus.can.delay {
        return Report(Blocked, CapabilityUnavailable, 0, 0), judged;
      }
      if attempt == limit {
        return Report(Bad, TelemetryUnsafe, 0, 0), judged;
      }
      var ok;
      ok, store := bus.Snapshot();
      if !ok {
        return Report(Bad, Io, 0, 0), judged;
      }
      attempt := attempt + 1;
    }
    assert false;
  }

  /** What a look settles, by what it is like. */
  lemma LookSettles(before: seq<Look>, look: Look, since: nat, policy: Policy, locks: bool)
    requires IsOpen(before, since, policy, locks) && |look.store| == ASIC_COUNT
    ensures var looks := before + [look];
            var judgeable := look.now != 0 && look.IsTolerable(since, policy, locks) &&
                               Orderly(Stamps(before), look.store);
            && (!judgeable || IsContinuous(looks, policy, locks) ==> Refuses(looks, since, policy, locks))
            && (judgeable && !IsContinuous(looks, policy, locks) ==>
                  && (IsConfirmed(looks, policy, locks) ==> Confirms(looks, since, policy, locks))
                  && (!IsConfirmed(looks, policy, locks) ==>
                        && IsOpen(looks, since, policy, locks)
                        && (|looks| == policy.confirmations * ASIC_COUNT + 1 ==> Refuses(looks, since, policy, locks))))
  {
    hide IsContinuous, IsConfirmed, Look.IsTolerable, Stamps, CountAfter;
    assert (before + [look])[..|before|] == before;
  }

  predicate AreLooked(looks: seq<Look>, taken: seq<seq<Sample>>) {
    |looks| == |taken| && forall j :: 0 <= j < |looks| ==> looks[j].store == taken[j]
  }

  lemma AcquiredThenLooked(acquired: seq<seq<Sample>>, taken: seq<seq<Sample>>, looks: seq<Look>, since: nat)
    requires acquired != [] && IsAcquired(acquired, [Look(acquired[|acquired| - 1], 0)], since) && acquired <= taken
    requires AreLooked(looks, taken[|acquired| - 1..])
    ensures IsAcquired(taken, looks, since)
  {
  }

  /** Acquire a snapshot, then confirm with successive ones. A good verdict rests on four samples that all
      pass and are sound, whether clock locks are required or not; a bad one on looks that deserve it. */
  method VerifyTelemetry(bus: Bus, policy: Policy, configured: nat, locks: bool)
    returns (report: Report, ghost judged: Judged)
    requires policy.IsValid()
    modifies bus`readings, bus`shots, bus`answers
    ensures old(bus.readings) <= bus.readings && old(bus.shots) <= bus.shots
    ensures report.outcome == Good ==>
              && judged.Accepts(policy, locks) && judged.IsTimed(bus.shots, bus.readings)
              && judged.since == configured && report == GOOD
              && Confirms(judged.looks, configured, policy, locks)
    ensures !bus.can.telemetry ==> report.outcome == Blocked && report.reason == CapabilityUnavailable
    ensures bus.can.telemetry ==>
              && judged.since == configured
              && judged.Excuses(report, policy, locks, bus.answers, bus.can.delay)
              && (report.reason != Io ==> IsAcquired(bus.shots[|old(bus.shots)|..], judged.looks, configured))
  {
    hide IsAcquired, Confirms, Refuses, Accepted, AreLooked;
    judged := UNJUDGED.(since := configured);
    if !bus.can.telemetry {
      return Report(Blocked, CapabilityUnavailable, 0, 0), judged;
    }
    var ok, store := Acquire(bus, configured);
    if !ok {
      return Report(Bad, Io, 0, 0), judged;
    }
    ghost var acquired := bus.shots;
    AcquiredSome(acquired[|old(bus.shots)|..], store, configured);
    report, judged := Confirm(bus, policy, configured, locks, store);
    if report.reason != Io {
      ghost var n := |old(bus.shots)|;
      assert bus.shots[n..][|acquired[n..]| - 1..] == bus.shots[|acquired| - 1..];
      AcquiredThenLooked(acquired[n..], bus.shots[n..], judged.looks, configured);
    }
  }

  lemma AcquiredSome(taken: seq<seq<Sample>>, store: seq<Sample>, since: nat)
    requires IsAcquired(taken, [Look(store, 0)], since)
    ensures taken != [] && taken[|taken| - 1] == store
  {
    assert [Look(store, 0)][0].store == store;
  }

  // ----- The stages -----

  datatype SensorProfile = SensorProfile(slowClockDivider: nat, slotBits: nat, slots: nat, tdmDelay: nat,
                                         sensorDivider: nat,
                                         gapCount: nat, thermalThreshold: nat, voltageThreshold: nat, tripCode: nat,
                                         shutdown0: nat, shutdown1: nat)
  {
    predicate IsValid() {
      && slowClockDivider in {2, 4, 8, 16} && FRAME_BIT_PERIODS <= slotBits < 256 && LAST_ASIC_ID < slots < 256
      && tdmDelay <= 3 && 2 <= sensorDivider <= 16 && gapCount <= 63 && tripCode <= 0xfff
      && shutdown0 <= 0x3fff && shutdown1 <= 0x3fff
    }

    /** The traffic control word with traffic on; one less turns it off. */
    function TdmControl(): nat {
      slotBits * 0x200 + slots * 2 + 1
    }

    /** Everything one ASIC's sensors are set to, given what its bandgap register held. */
    function Settings(bandgap: nat): seq<Setting> {
      [ Setting(TDM_CONTROL, TdmControl() - 1),
        Setting(UART_TX, 0x0f),
        Setting(SLOW_CLOCK_DIVIDER, slowClockDivider),
        Setting(TDM_DELAY, tdmDelay),
        Setting(SENSOR_CLOCK, sensorDivider * 32 + sensorDivider),
        Setting(DTS_RESET, 0x100),
        Setting(SENSOR_TDM_GAP, gapCount),
        Setting(DTS_CONFIG, 0),
        Setting(SENSOR_THRESHOLDS, thermalThreshold * 0x10000 + voltageThreshold),
        Setting(TEMPERATURE_TUNE, 0x8001 + tripCode * 2),
        Setting(BANDGAP, bandgap / 16 * 16 + 3),
        Setting(VSENSOR_RESET, 0x100),
        Setting(VSENSOR_CONFIG, 8 * 0x10000000 + 0x1000000),
        Setting(VSENSOR_CONTROL, shutdown1 * 0x10000 + shutdown0 * 2 + 1) ]
    }
  }

  const REFERENCE := SensorProfile(2, 0x7f, 100, 1, 8, 63, 10, 10, 2650, 7561, 7561)
  const DRIVE: seq<Setting> := [Setting(DRIVE_STRENGTH, 0x44464444)]
  const DLLS_OFF: seq<Setting> := [Setting(DLL0_CONTROL, 0), Setting(DLL1_CONTROL, 0)]
  const PLLS_OFF: seq<Setting> := [Setting(PLL0_ENABLE, 0), Setting(PLL0_ENABLE + PLL_STRIDE, 0)]
  const PLLS_ON: seq<Setting> := [Setting(PLL0_ENABLE, 1), Setting(PLL0_ENABLE + PLL_STRIDE, 1)]
  const PLL_DIVIDERS: seq<Setting> :=
    [ Setting(PLL0_FEEDBACK, 128), Setting(PLL0_POSTDIV, 0x1242),
      Setting(PLL0_FEEDBACK + PLL_STRIDE, 128), Setting(PLL0_POSTDIV + PLL_STRIDE, 0x1242) ]
  const TRAFFIC_OFF: seq<Setting> := [Setting(TDM_CONTROL, REFERENCE.TdmControl() - 1)]
  const REPORTING_OFF: seq<Setting> := [Setting(RESULT_CONTROL, DISABLED)]
  const REPORTING_ON: seq<Setting> := [Setting(RESULT_CONTROL, ENABLED)]

  /** The sensor controls the clock stage proves again after both PLLs have locked. */
  const KEPT: seq<Setting> :=
    [ Setting(TDM_CONTROL, REFERENCE.TdmControl() - 1), Setting(SLOW_CLOCK_DIVIDER, 2), Setting(TDM_DELAY, 1),
        Setting(UART_TX, 0x0f),
      Setting(SENSOR_TDM_GAP, 63), Setting(SENSOR_CLOCK, 8 * 32 + 8) ]

  /** Everything the clock stage reads back, but for the locks. */
  const CLOCK_SETTINGS: seq<Setting> := TRAFFIC_OFF + PLL_DIVIDERS + DLLS_OFF + KEPT

  lemma ClockSettingsWithin()
    ensures forall k :: 0 <= k < |TRAFFIC_OFF| ==> TRAFFIC_OFF[k] in CLOCK_SETTINGS
    ensures forall k :: 0 <= k < |PLL_DIVIDERS| ==> PLL_DIVIDERS[k] in CLOCK_SETTINGS
    ensures forall k :: 0 <= k < |DLLS_OFF| ==> DLLS_OFF[k] in CLOCK_SETTINGS
    ensures forall k :: 0 <= k < |KEPT| ==> KEPT[k] in CLOCK_SETTINGS
  {
  }

  /** There is a bandgap reading for which one ASIC's sensors are all proven. */
  ghost predicate SensorsShown(m: Readbacks, asic: nat, profile: SensorProfile) {
    exists bandgap: nat :: AllShown(m, asic, profile.Settings(bandgap))
  }

  /** Nothing has changed about an ASIC's registers other than these. */
  ghost predicate SameBut(before: Readbacks, after: Readbacks, asic: nat, settings: seq<Setting>) {
    forall register: nat :: !Names(settings, register) ==>
      ((asic, register) in after <==> (asic, register) in before) &&
      ((asic, register) in after ==> after[(asic, register)] == before[(asic, register)])
  }

  lemma SensorsStayShown(before: Readbacks, after: Readbacks, asic: nat, profile: SensorProfile, others: seq<Setting>)
    requires SensorsShown(before, asic, profile) && SameBut(before, after, asic, others)
    requires others == [] || others == DRIVE
    ensures SensorsShown(after, asic, profile)
  {
    var bandgap: nat :| AllShown(before, asic, profile.Settings(bandgap));
    forall i | 0 <= i < |profile.Settings(bandgap)|
      ensures Shows(after, asic, profile.Settings(bandgap)[i].register, profile.Settings(bandgap)[i].value)
    {
      assert Shows(before, asic, profile.Settings(bandgap)[i].register, profile.Settings(bandgap)[i].value);
      assert !Names(others, profile.Settings(bandgap)[i].register);
    }
  }

  datatype PllProfile = PllProfile(target: nat, reference: nat, referenceDivider: nat, post1: nat, post2: nat,
                                   feedback: nat,
                                   postdiv: nat, lockAttempts: nat)
  {
    predicate IsExact800() {
      && target == 800 && reference == 50 && referenceDivider == 2 && post1 == 1 && post2 == 1 && feedback == 128
      && postdiv == 0x1242 && lockAttempts != 0
    }
  }

  predicate LockShown(m: Readbacks, asic: nat, pll: nat) {
    (asic, PLL0_ENABLE + pll * PLL_STRIDE) in m && PllBus.Locked(m[(asic, PLL0_ENABLE + pll * PLL_STRIDE)])
  }

  /** One ASIC's PLLs run on the power-on dividers and are locked, its DLLs are off, and the sensor path
      is as it was. */
  predicate ClocksShown(m: Readbacks, asic: nat) {
    && AllShown(m, asic, PLL_DIVIDERS) && LockShown(m, asic, 0) && LockShown(m, asic, 1)
    && AllShown(m, asic, DLLS_OFF) && AllShown(m, asic, KEPT)
  }

  /** The PLLs of the chain as the readbacks of the clock stage show them. */
  function PllsOf(m: Readbacks): seq<PllBus.Pll> {
    seq(PllBus.DOMAINS, d requires 0 <= d < PllBus.DOMAINS =>
      PllOf(m, WIRE_IDS[d / PllBus.PLLS], d % PllBus.PLLS))
  }

  function PllOf(m: Readbacks, asic: nat, pll: nat): PllBus.Pll {
    var feedback, postdiv := (asic, PLL0_FEEDBACK + pll * PLL_STRIDE), (asic, PLL0_POSTDIV + pll * PLL_STRIDE);
    if feedback in m && postdiv in m then
      PllBus.Pll(m[feedback], m[postdiv], Some(m[feedback]), Some(m[postdiv]), LockShown(m, asic, pll))
    else PllBus.Pll(0, 0, None, None, false)
  }

  /** What the clock stage proves of all four ASICs puts the chain at power-on, each PLL proven: from there the
      recorded clocks can be stepped live. */
  lemma ShownClocksAreAtPowerOn(m: Readbacks)
    requires forall i :: 0 <= i < ASIC_COUNT ==> ClocksShown(m, WIRE_IDS[i])
    ensures var board := LiveClock.Board(seq(PllBus.DOMAINS, d => Frequency.POWER_ON), PllsOf(m));
            && LiveClock.AtPowerOn(board) && board.AllOnGrid()
            && forall d :: 0 <= d < PllBus.DOMAINS ==>
                 board.Agrees(d) && board.plls[d].Proven(Frequency.Resolve(Frequency.Mhz(Frequency.POWER_ON)).value)
  {
    hide LockShown, Frequency.Resolve;
    forall d | 0 <= d < PllBus.DOMAINS
      ensures PllsOf(m)[d] == PllBus.Pll(128, 0x1242, Some(128), Some(0x1242), true)
    {
      var asic, pll := WIRE_IDS[d / PllBus.PLLS], d % PllBus.PLLS;
      assert ClocksShown(m, asic);
      assert Shows(m, asic, PLL_DIVIDERS[2 * pll].register, PLL_DIVIDERS[2 * pll].value);
      assert Shows(m, asic, PLL_DIVIDERS[2 * pll + 1].register, PLL_DIVIDERS[2 * pll + 1].value);
    }
    Frequency.ResolveOfGrid(Frequency.MIN_DIVIDER);
    LiveClock.PowerOnAgrees(LiveClock.Board(seq(PllBus.DOMAINS, d => Frequency.POWER_ON), PllsOf(m)));
  }

  lemma ClocksStayShown(before: Readbacks, after: Readbacks, asic: nat, other: nat)
    requires ClocksShown(before, asic) && OnlyTouches(before, after, other) && asic != other
    ensures ClocksShown(after, asic)
  {
    StaysShownElsewhere(before, after, asic, other, PLL_DIVIDERS);
    StaysShownElsewhere(before, after, asic, other, DLLS_OFF);
    StaysShownElsewhere(before, after, asic, other, KEPT);
    assert (asic, PLL0_ENABLE + 0 * PLL_STRIDE).0 == asic && (asic, PLL0_ENABLE + 1 * PLL_STRIDE).0 == asic;
  }

  lemma StaysShownElsewhere(before: Readbacks, after: Readbacks, asic: nat, other: nat, settings: seq<Setting>)
    requires AllShown(before, asic, settings) && OnlyTouches(before, after, other) && asic != other
    ensures AllShown(after, asic, settings)
  {
    forall i | 0 <= i < |settings|
      ensures Shows(after, asic, settings[i].register, settings[i].value)
    {
      assert Shows(before, asic, settings[i].register, settings[i].value);
      assert (asic, settings[i].register).0 == asic;
    }
  }

  class Bringup {
    const bus: Bus
    var chain: bool
    var sensors: bool
    var clocks: bool
    var ramp: bool
    var running: bool
    var sensorsAt: nat
    var clocksAt: nat

    /** Each stage stands on the one before; nothing opened result reporting early, no pair was committed while
        some ASIC might report results, and no divider set on a busy bus or a running PLL. */
    ghost predicate Valid()
      reads this, bus
    {
      && (running ==> ramp) && (ramp ==> clocks) && (clocks ==> sensors) && (sensors ==> chain)
      && bus.earlyEnables == 0 && bus.openCommits == 0 && bus.rashDividers == 0
    }

    constructor (bus: Bus)
      requires bus.earlyEnables == 0 && bus.openCommits == 0 && bus.rashDividers == 0
      ensures Valid() && this.bus == bus && !chain
    {
      this.bus := bus;
      chain, sensors, clocks, ramp, running := false, false, false, false, false;
      sensorsAt, clocksAt := 0, 0;
    }

    method ClearAfterChain()
      modifies this
      ensures !chain && !sensors && !clocks && !ramp && !running && sensorsAt == 0 && clocksAt == 0
    {
      chain, sensors, clocks, ramp, running, sensorsAt, clocksAt := false, false, false, false, false, 0, 0;
    }

    method ClearAfterSensors()
      modifies this
      ensures chain == old(chain) && !sensors && !clocks && !ramp && !running && sensorsAt == 0 && clocksAt == 0
    {
      sensors, clocks, ramp, running, sensorsAt, clocksAt := false, false, false, false, 0, 0;
    }

    method ClearAfterClocks()
      modifies this
      ensures chain == old(chain) && sensors == old(sensors) && sensorsAt == old(sensorsAt)
      ensures !clocks && !ramp && !running && clocksAt == 0
    {
      clocks, ramp, running, clocksAt := false, false, false, 0;
    }

    /** Wait until an ASIC without a number answers, give it the next one, and read it back. */
    method NumberAsic(i: nat) returns (report: Report)
      requires i < ASIC_COUNT && bus.earlyEnables == 0
      modifies bus`proven, bus`provenAtStart, bus`quiet, bus`loudReads, bus`earlyEnables, bus`probes
      modifies bus`acts, bus`answers, bus`disabled, bus`rashDividers
      ensures bus.earlyEnables == 0 && bus.rashDividers == old(bus.rashDividers)
      ensures report.outcome == Good || (report.outcome == Bad && Deserved(bus.answers, report, [], 0))
      ensures report.outcome == Good ==>
                && bus.Proven(WIRE_IDS[i], ASIC_ID, WIRE_IDS[i] + 0x100)
                && bus.acts == old(bus.acts) + 1 && old(bus.probes) < bus.probes
                && bus.probes[|bus.probes| - 1] == Probed(Response, old(bus.acts))
                && forall j :: 0 <= j < ASIC_COUNT && j != i && old(bus.Proven(WIRE_IDS[j], ASIC_ID,
                    WIRE_IDS[j] + 0x100))
                     ==> bus.Proven(WIRE_IDS[j], ASIC_ID, WIRE_IDS[j] + 0x100)
    {
      hide NeverLocked, TrafficOffShown;
      var probe := AwaitAnswer(bus);
      if probe != Response {
        return Report(Bad, if probe == NoResponse then ChainMissing else Io, WIRE_IDS[i], i);
      }
      var ok := bus.Write(UNASSIGNED, ASIC_ID, WIRE_IDS[i] + (if i == 0 then 0 else 0x100), ramp);
      if !ok {
        return Report(Bad, Io, WIRE_IDS[i], i);
      }
      var readback;
      ok, readback := bus.Read(WIRE_IDS[i], ASIC_ID);
      if !ok {
        return Report(Bad, Io, WIRE_IDS[i], i);
      }
      if readback != WIRE_IDS[i] + 0x100 {
        report := Report(Bad, ChainIdMismatch, WIRE_IDS[i], i);
        NumberDiffers(bus.answers[|bus.answers| - 1], report.asic);
        return;
      }
      report := GOOD;
    }

    /** Number the ASICs of the chain one by one, reading each number back; then no other may answer. */
    method StageChain() returns (report: Report)
      requires Valid()
      modifies this, bus
      ensures Valid()
      ensures !bus.can.probe ==> report.outcome == Bad && chain == old(chain)
      ensures bus.can.probe ==> (report.outcome == Good <==> chain) && !sensors
      ensures report.outcome == Good || (report.outcome == Bad &&
                if bus.can.probe then Deserved(bus.answers, report, [], 0) else report.reason == InvalidArgument)
      ensures report.outcome == Good ==> forall i :: 0 <= i < ASIC_COUNT ==>
                bus.Proven(WIRE_IDS[i], ASIC_ID, WIRE_IDS[i] + 0x100)
      ensures report.outcome == Good ==>
                && bus.acts == old(bus.acts) + ASIC_COUNT && old(bus.probes) < bus.probes
                && Answered(bus.probes[|old(bus.probes)|..], old(bus.acts), bus.acts)
                && bus.probes[|bus.probes| - 1] == Probed(NoResponse, bus.acts)
    {
      hide NeverLocked;
      if !bus.can.probe {
        return Report(Bad, InvalidArgument, 0, 0);
      }
      ClearAfterChain();
      var i := 0;
      while i < ASIC_COUNT
        invariant 0 <= i <= ASIC_COUNT && Valid() && !chain
        invariant forall j :: 0 <= j < i ==> bus.Proven(WIRE_IDS[j], ASIC_ID, WIRE_IDS[j] + 0x100)
        invariant bus.acts == old(bus.acts) + i && old(bus.probes) <= bus.probes
        invariant Answered(bus.probes[|old(bus.probes)|..], old(bus.acts), bus.acts)
      {
        ghost var before := bus.probes;
        report := NumberAsic(i);
        if report.outcome != Good {
          return;
        }
        AnsweredNext(before, bus.probes, |old(bus.probes)|, old(bus.acts), bus.acts - 1);
        i := i + 1;
      }
      ghost var answered := bus.probes;
      var extra := bus.ProbeChain();
      AnsweredStill(answered, bus.probes, |old(bus.probes)|, old(bus.acts), bus.acts);
      if extra != NoResponse {
        return Report(Bad, if extra == Response then ChainExtraAsic else Io, UNASSIGNED, ASIC_COUNT);
      }
      chain := true;
      report := GOOD;
    }

    /** Failing to set the sensors is deserved, given what an ASIC's bandgap register held before. */
    ghost predicate SensorsDeserved(report: Report, profile: SensorProfile)
      reads bus
    {
      || Deserved(bus.answers, report, DRIVE, 0)
      || exists bandgap: nat ::
           Got(report.asic, BANDGAP, true, bandgap) in bus.answers &&
           Deserved(bus.answers, report, profile.Settings(bandgap), 0)
    }

    /** Set and prove one ASIC's sensors. */
    method SetSensors(i: nat, profile: SensorProfile) returns (report: Report)
      requires i < ASIC_COUNT && profile.IsValid()
      modifies bus`proven, bus`provenAtStart, bus`quiet, bus`loudReads, bus`earlyEnables
      modifies bus`acts, bus`answers, bus`disabled, bus`rashDividers
      ensures bus.earlyEnables == old(bus.earlyEnables) && bus.rashDividers == old(bus.rashDividers)
      ensures report.outcome == Good || (report.outcome == Bad && SensorsDeserved(report, profile))
      ensures report.outcome == Good ==> SensorsShown(bus.proven, WIRE_IDS[i], profile)
      ensures forall j :: 0 <= j < ASIC_COUNT && j != i ==> SameBut(old(bus.proven), bus.proven, WIRE_IDS[j], [])
    {
      hide Deserved, Differs;
      var ok, bandgap := bus.Read(WIRE_IDS[i], BANDGAP);
      assert Got(WIRE_IDS[i], BANDGAP, ok, bandgap) == bus.answers[|bus.answers| - 1];
      if !ok {
        report := Report(Bad, Io, WIRE_IDS[i], i);
        AnswerFailed(bus.answers, report, DRIVE, 0);
        return;
      }
      report := WriteAndVerify(bus, WIRE_IDS[i], profile.Settings(bandgap), i, false);
      assert report.outcome == Good ==> AllShown(bus.proven, WIRE_IDS[i], profile.Settings(bandgap));
    }

    /** Set and prove every ASIC's sensors, then the drive strength of the first. */
    method ProveSensors(profile: SensorProfile) returns (report: Report)
      requires profile.IsValid()
      modifies bus`proven, bus`provenAtStart, bus`quiet, bus`loudReads, bus`earlyEnables
      modifies bus`acts, bus`answers, bus`disabled, bus`rashDividers
      ensures bus.earlyEnables == old(bus.earlyEnables) && bus.rashDividers == old(bus.rashDividers)
      ensures report.outcome == Good || (report.outcome == Bad && SensorsDeserved(report, profile))
      ensures report.outcome == Good ==>
                && (forall i :: 0 <= i < ASIC_COUNT ==> SensorsShown(bus.proven, WIRE_IDS[i], profile))
                && AllShown(bus.proven, FIRST_ASIC_ID, DRIVE)
    {
      hide SensorsShown, SameBut, Deserved;
      var i := 0;
      while i < ASIC_COUNT
        invariant 0 <= i <= ASIC_COUNT && bus.earlyEnables == old(bus.earlyEnables)
        invariant bus.rashDividers == old(bus.rashDividers)
        invariant forall j :: 0 <= j < i ==> SensorsShown(bus.proven, WIRE_IDS[j], profile)
      {
        ghost var before := bus.proven;
        report := SetSensors(i, profile);
        if report.outcome != Good {
          return;
        }
        forall j | 0 <= j < i
          ensures SensorsShown(bus.proven, WIRE_IDS[j], profile)
        {
          SensorsStayShown(before, bus.proven, WIRE_IDS[j], profile, []);
        }
        i := i + 1;
      }
      ghost var before := bus.proven;
      report := WriteAndVerify(bus, FIRST_ASIC_ID, DRIVE, 0, false);
      forall j | 0 <= j < ASIC_COUNT
        ensures SensorsShown(bus.proven, WIRE_IDS[j], profile)
      {
        OthersAreSame(before, bus.proven, FIRST_ASIC_ID, DRIVE, WIRE_IDS[j]);
        SensorsStayShown(before, bus.proven, WIRE_IDS[j], profile, DRIVE);
      }
    }

    /** Set and prove every ASIC's sensors and the drive strength, and start traffic. */
    method ProgramSensors(profile: SensorProfile) returns (report: Report)
      requires profile.IsValid() && !ramp
      modifies bus`proven, bus`provenAtStart, bus`quiet, bus`loudReads, bus`earlyEnables
      modifies bus`acts, bus`answers, bus`disabled, bus`rashDividers
      ensures bus.earlyEnables == old(bus.earlyEnables) && bus.rashDividers == old(bus.rashDividers)
      ensures report.outcome == Good || (report.outcome == Bad && SensorsDeserved(report, profile))
      ensures report.outcome == Good ==>
                && (forall i :: 0 <= i < ASIC_COUNT ==> SensorsShown(bus.provenAtStart, WIRE_IDS[i], profile))
                && AllShown(bus.provenAtStart, FIRST_ASIC_ID, DRIVE)
    {
      hide SensorsShown, Deserved, IsRash, Disabled, AllShown;
      NotRash();
      report := ProveSensors(profile);
      if report.outcome != Good {
        return;
      }
      var ok := bus.Write(ALL, TDM_CONTROL, profile.TdmControl(), ramp);
      if !ok {
        report := Report(Bad, Io, ALL, 0);
        AnswerFailed(bus.answers, report, DRIVE, 0);
        return;
      }
      report := GOOD;
    }

    /** Set and prove every ASIC's sensors and the drive strength, start traffic, and judge the first samples. */
    method StageSensors(profile: SensorProfile, policy: Policy) returns (report: Report, ghost judged: Judged)
      requires Valid()
      modifies this, bus
      ensures Valid() && chain == old(chain)
      ensures report.outcome == Good ==>
                && sensors && chain
                && (forall i :: 0 <= i < ASIC_COUNT ==> SensorsShown(bus.provenAtStart, WIRE_IDS[i], profile))
                && AllShown(bus.provenAtStart, FIRST_ASIC_ID, DRIVE)
                && judged.Accepts(policy, false) && judged.IsTimed(bus.shots, bus.readings)
                && judged.since == sensorsAt && bus.ReadLast(sensorsAt)
      ensures report.outcome == Bad && profile.IsValid() && policy.IsValid() ==>
                SensorsDeserved(report, profile) || IsExcused(bus.answers, report, DRIVE, 0, judged, policy, false)
      ensures report.outcome == Blocked ==> !old(chain) || !bus.can.telemetry || !bus.can.delay
      ensures profile.IsValid() && policy.IsValid() && !old(chain) ==> report.outcome == Blocked
      ensures profile.IsValid() && policy.IsValid() && old(chain) && bus.can.telemetry ==>
                (sensors <==> report.outcome == Good)
    {
      hide SensorsShown, Accepted, Deserved, Refuses, Confirms, Judged.Excuses, IsAcquired, SensorsDeserved;
      judged := UNJUDGED;
      if !profile.IsValid() || !policy.IsValid() {
        return Report(Bad, InvalidArgument, 0, 0), judged;
      }
      if !chain {
        return Report(Blocked, Prerequisite, 0, 0), judged;
      }
      if !bus.can.telemetry {
        return Report(Blocked, CapabilityUnavailable, 0, 0), judged;
      }
      ClearAfterSensors();
      report := ProgramSensors(profile);
      if report.outcome != Good {
        return;
      }
      sensorsAt := bus.Now();
      report, judged := VerifyTelemetry(bus, policy, sensorsAt, false);
      ExcusedByLooks(bus.answers, report, DRIVE, 0, judged, policy, false, bus.can.delay);
      if report.outcome != Good {
        return;
      }
      sensors := true;
      report := GOOD;
    }

    /** Poll both PLLs of an ASIC until both are locked in the same round. */
    method AwaitLocks(i: nat, attempts: nat) returns (report: Report)
      requires i < ASIC_COUNT
      modifies bus`proven, bus`loudReads, bus`answers
      ensures bus.quiet ==> bus.loudReads == old(bus.loudReads)
      ensures KeepsOthers(old(bus.proven), bus.proven, WIRE_IDS[i], PLLS_ON)
      ensures report.outcome == Good ||
                (report.outcome == Bad && (attempts == 0 || Deserved(bus.answers, report, [], attempts)))
      ensures report.outcome == Good ==> LockShown(bus.proven, WIRE_IDS[i], 0) && LockShown(bus.proven, WIRE_IDS[i], 1)
    {
      hide PllBus.Locked, NeverLocked;
      NeverLockedYet(bus.answers, WIRE_IDS[i]);
      var attempt, locked0, locked1 := 0, false, false;
      assert PLLS_ON[0].register == PLL0_ENABLE && PLLS_ON[1].register == PLL0_ENABLE + PLL_STRIDE;
      while attempt < attempts && !(locked0 && locked1)
        invariant attempt <= attempts && (attempt > 0 ==> bus.answers != [])
        invariant !(locked0 && locked1) ==> NeverLocked(bus.answers, WIRE_IDS[i], attempt)
        invariant bus.quiet ==> bus.loudReads == old(bus.loudReads)
        invariant KeepsOthers(old(bus.proven), bus.proven, WIRE_IDS[i], PLLS_ON)
        invariant locked0 && locked1 ==> LockShown(bus.proven, WIRE_IDS[i], 0) && LockShown(bus.proven, WIRE_IDS[i], 1)
      {
        ghost var before := bus.answers;
        var ok, value := bus.Read(WIRE_IDS[i], PLL0_ENABLE);
        ghost var value0 := value;
        if !ok {
          return Report(Bad, Io, WIRE_IDS[i], i);
        }
        locked0 := PllBus.Locked(value);
        ok, value := bus.Read(WIRE_IDS[i], PLL0_ENABLE + PLL_STRIDE);
        if !ok {
          return Report(Bad, Io, WIRE_IDS[i], i);
        }
        locked1 := PllBus.Locked(value);
        if !(locked0 && locked1) {
          NeverLockedAgain(before, bus.answers, WIRE_IDS[i], attempt, value0, value);
        }
        attempt := attempt + 1;
      }
      report := if locked0 && locked1 then GOOD else Report(Bad, PllUnlocked, WIRE_IDS[i], i);
    }

    /** Set one ASIC's PLLs to the power-on clock, with both disabled meanwhile, and wait for their locks. */
    method StartPlls(i: nat, attempts: nat) returns (report: Report)
      requires i < ASIC_COUNT && bus.quiet && TrafficOffShown(bus.proven)
      modifies bus`proven, bus`provenAtStart, bus`quiet, bus`loudReads, bus`earlyEnables
      modifies bus`acts, bus`answers, bus`disabled, bus`rashDividers
      ensures bus.quiet && bus.loudReads == old(bus.loudReads) && bus.earlyEnables == old(bus.earlyEnables)
      ensures report.outcome == Good || (report.outcome == Bad &&
                (attempts == 0 || Deserved(bus.answers, report, CLOCK_SETTINGS, attempts)))
      ensures report.outcome == Good ==>
                AllShown(bus.proven, WIRE_IDS[i], PLL_DIVIDERS) && LockShown(bus.proven, WIRE_IDS[i], 0) &&
                    LockShown(bus.proven, WIRE_IDS[i], 1)
      ensures OnlyTouches(old(bus.proven), bus.proven, WIRE_IDS[i])
      ensures TrafficOffShown(bus.proven) && bus.rashDividers == old(bus.rashDividers)
    {
      hide TrafficOffShown, Names, NoDividers, AllShown, LockShown, KeepsOthers, OnlyTouches, StaysQuiet, StaysClosed,
          Distinct, Disjoint, Deserved, CLOCK_SETTINGS;
      ClockSettings();
      ClockSettingsWithin();
      ghost var m0 := bus.proven;
      report := WriteAll(bus, WIRE_IDS[i], PLLS_OFF, i, false);
      ghost var m1 := bus.proven;
      KeepsMeansTouches(m0, m1, WIRE_IDS[i], PLLS_OFF);
      TrafficStaysOff(m0, m1, WIRE_IDS[i], PLLS_OFF);
      if report.outcome != Good {
        NothingCameThrough(bus.answers, report, CLOCK_SETTINGS, attempts);
        return;
      }
      BothOff(bus.disabled, WIRE_IDS[i]);
      report := WriteAll(bus, WIRE_IDS[i], PLL_DIVIDERS, i, false);
      ghost var m2 := bus.proven;
      KeepsMeansTouches(m1, m2, WIRE_IDS[i], PLL_DIVIDERS);
      TrafficStaysOff(m1, m2, WIRE_IDS[i], PLL_DIVIDERS);
      TouchesTwice(m0, m1, m2, WIRE_IDS[i]);
      if report.outcome != Good {
        NothingCameThrough(bus.answers, report, CLOCK_SETTINGS, attempts);
        return;
      }
      report := WriteAll(bus, WIRE_IDS[i], PLLS_ON, i, false);
      ghost var m3 := bus.proven;
      KeepsMeansTouches(m2, m3, WIRE_IDS[i], PLLS_ON);
      TrafficStaysOff(m2, m3, WIRE_IDS[i], PLLS_ON);
      TouchesTwice(m0, m2, m3, WIRE_IDS[i]);
      if report.outcome != Good {
        NothingCameThrough(bus.answers, report, CLOCK_SETTINGS, attempts);
        return;
      }
      report := ReadAll(bus, WIRE_IDS[i], PLL_DIVIDERS, i);
      ghost var m4 := bus.proven;
      KeepsMeansTouches(m3, m4, WIRE_IDS[i], PLL_DIVIDERS);
      TrafficStaysOff(m3, m4, WIRE_IDS[i], PLL_DIVIDERS);
      TouchesTwice(m0, m3, m4, WIRE_IDS[i]);
      if report.outcome != Good {
        DeservedWider(bus.answers, report, PLL_DIVIDERS, CLOCK_SETTINGS, 0, attempts);
        return;
      }
      report := AwaitLocks(i, attempts);
      KeepsMeansTouches(m4, bus.proven, WIRE_IDS[i], PLLS_ON);
      TrafficStaysOff(m4, bus.proven, WIRE_IDS[i], PLLS_ON);
      TouchesTwice(m0, m4, bus.proven, WIRE_IDS[i]);
      StaysShown(m4, bus.proven, WIRE_IDS[i], PLL_DIVIDERS, PLLS_ON);
      if report.outcome != Good && attempts != 0 {
        DeservedWider(bus.answers, report, [], CLOCK_SETTINGS, attempts, attempts);
      }
    }

    /** Bring one ASIC's PLLs up, turn its DLLs off, and prove what must not have been disturbed. */
    method SetClocks(i: nat, profile: PllProfile) returns (report: Report)
      requires i < ASIC_COUNT && profile.IsExact800() && bus.quiet && TrafficOffShown(bus.proven)
      modifies bus`proven, bus`provenAtStart, bus`quiet, bus`loudReads, bus`earlyEnables
      modifies bus`acts, bus`answers, bus`disabled, bus`rashDividers
      ensures bus.quiet && bus.loudReads == old(bus.loudReads) && bus.earlyEnables == old(bus.earlyEnables)
      ensures report.outcome == Good ||
                (report.outcome == Bad && Deserved(bus.answers, report, CLOCK_SETTINGS, profile.lockAttempts))
      ensures report.outcome == Good ==> ClocksShown(bus.proven, WIRE_IDS[i])
      ensures OnlyTouches(old(bus.proven), bus.proven, WIRE_IDS[i])
      ensures bus.rashDividers == old(bus.rashDividers) && (report.outcome == Good ==> TrafficOffShown(bus.proven))
    {
      hide TrafficOffShown, Names, NoDividers, AllShown, LockShown, KeepsOthers, OnlyTouches, StaysQuiet, StaysClosed,
          Distinct, Disjoint, Deserved, CLOCK_SETTINGS;
      ClockSettings();
      ClockSettingsWithin();
      ghost var m0 := bus.proven;
      report := StartPlls(i, profile.lockAttempts);
      if report.outcome != Good {
        return;
      }
      ghost var m1 := bus.proven;
      report := WriteAndVerify(bus, WIRE_IDS[i], DLLS_OFF, i, false);
      ghost var m2 := bus.proven;
      KeepsMeansTouches(m1, m2, WIRE_IDS[i], DLLS_OFF);
      TrafficStaysOff(m1, m2, WIRE_IDS[i], DLLS_OFF);
      TouchesTwice(m0, m1, m2, WIRE_IDS[i]);
      if report.outcome != Good {
        DeservedWider(bus.answers, report, DLLS_OFF, CLOCK_SETTINGS, 0, profile.lockAttempts);
        return;
      }
      report := ReadAll(bus, WIRE_IDS[i], KEPT, i);
      KeepsMeansTouches(m2, bus.proven, WIRE_IDS[i], KEPT);
      TouchesTwice(m0, m2, bus.proven, WIRE_IDS[i]);
      if report.outcome == Good {
        TrafficConfirmedAgain(m2, bus.proven, i);
      } else {
        DeservedWider(bus.answers, report, KEPT, CLOCK_SETTINGS, 0, profile.lockAttempts);
      }
      StaysShown(m1, m2, WIRE_IDS[i], PLL_DIVIDERS, DLLS_OFF);
      StaysShown(m2, bus.proven, WIRE_IDS[i], PLL_DIVIDERS, KEPT);
      StaysShown(m2, bus.proven, WIRE_IDS[i], DLLS_OFF, KEPT);
      LocksStayShown(m1, m2, WIRE_IDS[i], DLLS_OFF);
      LocksStayShown(m2, bus.proven, WIRE_IDS[i], KEPT);
    }

    /** Confirm that every ASIC has turned traffic off. */
    method ConfirmQuiet() returns (report: Report)
      requires bus.quiet
      modifies bus`proven, bus`loudReads, bus`answers
      ensures bus.loudReads == old(bus.loudReads)
      ensures report.outcome == Good || (report.outcome == Bad && Deserved(bus.answers, report, TRAFFIC_OFF, 0))
      ensures report.outcome == Bad ==> report.reason in {Io, RegisterReadback}
      ensures report.outcome == Good ==> TrafficOffShown(bus.proven)
    {
      hide Deserved;
      var i := 0;
      report := GOOD;
      while i < ASIC_COUNT && report.outcome == Good
        invariant 0 <= i <= ASIC_COUNT && bus.loudReads == old(bus.loudReads)
        invariant report.outcome == Good || (report.outcome == Bad && Deserved(bus.answers, report, TRAFFIC_OFF, 0))
        invariant report.outcome == Bad ==> report.reason in {Io, RegisterReadback}
        invariant report.outcome == Good ==>
                    forall j :: 0 <= j < i ==> Shows(bus.proven, WIRE_IDS[j], TDM_CONTROL, TRAFFIC_OFF_WORD)
      {
        report := ReadAll(bus, WIRE_IDS[i], TRAFFIC_OFF, i);
        assert report.outcome == Good ==> Shows(bus.proven, WIRE_IDS[i], TRAFFIC_OFF[0].register, TRAFFIC_OFF[0].value);
        i := i + 1;
      }
    }

    /** Program the clocks of every ASIC, once all of them have confirmed quiet. */
    method SetAllClocks(profile: PllProfile) returns (report: Report)
      requires profile.IsExact800() && bus.quiet && TrafficOffShown(bus.proven)
      modifies bus`proven, bus`provenAtStart, bus`quiet, bus`loudReads, bus`earlyEnables
      modifies bus`acts, bus`answers, bus`disabled, bus`rashDividers
      ensures bus.quiet && bus.loudReads == old(bus.loudReads) && bus.earlyEnables == old(bus.earlyEnables)
      ensures bus.rashDividers == old(bus.rashDividers)
      ensures report.outcome == Good ||
                (report.outcome == Bad && Deserved(bus.answers, report, CLOCK_SETTINGS, profile.lockAttempts))
      ensures report.outcome == Good ==> forall i :: 0 <= i < ASIC_COUNT ==> ClocksShown(bus.proven, WIRE_IDS[i])
    {
      hide ClocksShown, OnlyTouches, Deserved, TrafficOffShown, CLOCK_SETTINGS;
      var i := 0;
      report := GOOD;
      while i < ASIC_COUNT
        invariant 0 <= i <= ASIC_COUNT && bus.quiet && TrafficOffShown(bus.proven)
        invariant bus.rashDividers == old(bus.rashDividers)
        invariant bus.loudReads == old(bus.loudReads) && bus.earlyEnables == old(bus.earlyEnables)
        invariant forall j :: 0 <= j < i ==> ClocksShown(bus.proven, WIRE_IDS[j])
      {
        ghost var before := bus.proven;
        report := SetClocks(i, profile);
        if report.outcome != Good {
          return;
        }
        forall j | 0 <= j < i
          ensures ClocksShown(bus.proven, WIRE_IDS[j])
        {
          ClocksStayShown(before, bus.proven, WIRE_IDS[j], WIRE_IDS[i]);
        }
        i := i + 1;
      }
      report := GOOD;
    }

    /** Stop traffic, bring every ASIC's clocks up and prove them, and start traffic. */
    method ProgramClocks(profile: PllProfile) returns (report: Report)
      requires profile.IsExact800() && !ramp
      modifies bus`proven, bus`provenAtStart, bus`quiet, bus`loudReads, bus`earlyEnables
      modifies bus`acts, bus`answers, bus`disabled, bus`rashDividers
      ensures bus.loudReads == old(bus.loudReads) && bus.earlyEnables == old(bus.earlyEnables)
      ensures bus.rashDividers == old(bus.rashDividers)
      ensures report.outcome == Good ||
                (report.outcome == Bad && Deserved(bus.answers, report, CLOCK_SETTINGS, profile.lockAttempts))
      ensures report.outcome == Good ==>
                !bus.quiet && forall i :: 0 <= i < ASIC_COUNT ==> ClocksShown(bus.provenAtStart, WIRE_IDS[i])
    {
      hide ClocksShown, Deserved, TrafficOffShown, CLOCK_SETTINGS, IsRash, Disabled;
      ClockSettingsWithin();
      NotRash();
      var ok := bus.Write(ALL, TDM_CONTROL, REFERENCE.TdmControl() - 1, ramp);
      if !ok {
        report := Report(Bad, Io, ALL, 0);
        AnswerFailed(bus.answers, report, CLOCK_SETTINGS, profile.lockAttempts);
        return;
      }
      report := ConfirmQuiet();
      if report.outcome != Good {
        DeservedWider(bus.answers, report, TRAFFIC_OFF, CLOCK_SETTINGS, 0, profile.lockAttempts);
        return;
      }
      report := SetAllClocks(profile);
      if report.outcome != Good {
        return;
      }
      ok := bus.Write(ALL, TDM_CONTROL, REFERENCE.TdmControl(), ramp);
      if !ok {
        report := Report(Bad, Io, ALL, 0);
        AnswerFailed(bus.answers, report, CLOCK_SETTINGS, profile.lockAttempts);
        return;
      }
      report := GOOD;
    }

    /** Stop traffic, bring every ASIC's clocks up and prove them, start traffic, and judge new samples.
        No register is read but between the two broadcasts. */
    method StageClocks(profile: PllProfile, policy: Policy) returns (report: Report, ghost judged: Judged)
      requires Valid()
      modifies this, bus
      ensures Valid() && chain == old(chain) && sensors == old(sensors)
      ensures bus.loudReads == old(bus.loudReads)
      ensures report.outcome == Good ==>
                && clocks && !bus.quiet
                && (forall i :: 0 <= i < ASIC_COUNT ==> ClocksShown(bus.provenAtStart, WIRE_IDS[i]))
                && judged.Accepts(policy, true) && judged.IsTimed(bus.shots, bus.readings)
                && judged.since == clocksAt && bus.ReadLast(clocksAt)
      ensures report.outcome == Bad && profile.IsExact800() && policy.IsValid() ==>
                IsExcused(bus.answers, report, CLOCK_SETTINGS, profile.lockAttempts, judged, policy, true)
      ensures report.outcome == Blocked ==> !old(sensors) || !bus.can.telemetry || !bus.can.delay
      ensures profile.IsExact800() && policy.IsValid() && !old(sensors) ==> report.outcome == Blocked
      ensures profile.IsExact800() && policy.IsValid() && old(sensors) && bus.can.telemetry ==>
                (clocks <==> report.outcome == Good)
    {
      hide ClocksShown, Accepted, Deserved, Refuses, Confirms, IsExcused, Judged.Excuses, IsAcquired, TrafficOffShown;
      hide CLOCK_SETTINGS;
      judged := UNJUDGED;
      if !profile.IsExact800() || !policy.IsValid() {
        return Report(Bad, InvalidArgument, 0, 0), judged;
      }
      if !sensors {
        return Report(Blocked, Prerequisite, 0, 0), judged;
      }
      if !bus.can.telemetry {
        return Report(Blocked, CapabilityUnavailable, 0, 0), judged;
      }
      ClearAfterClocks();
      report := ProgramClocks(profile);
      if report.outcome != Good {
        IsDeserved(bus.answers, report, CLOCK_SETTINGS, profile.lockAttempts, judged, policy, true);
        return;
      }
      clocksAt := bus.Now();
      report, judged := VerifyTelemetry(bus, policy, clocksAt, true);
      ExcusedByLooks(bus.answers, report, CLOCK_SETTINGS, profile.lockAttempts, judged, policy, true, bus.can.delay);
      if report.outcome != Good {
        return;
      }
      clocks := true;
      report := GOOD;
    }

    /** Close result reporting on every ASIC and prove it. */
    method CloseReporting() returns (report: Report)
      modifies bus`proven, bus`provenAtStart, bus`quiet, bus`loudReads, bus`earlyEnables
      modifies bus`acts, bus`answers, bus`disabled, bus`rashDividers
      ensures bus.earlyEnables == old(bus.earlyEnables) && bus.rashDividers == old(bus.rashDividers)
      ensures report.outcome == Good || (report.outcome == Bad && Deserved(bus.answers, report, REPORTING_OFF, 0))
      ensures report.outcome == Good ==> bus.ReportingDisabled()
    {
      hide Deserved;
      var i := 0;
      while i < ASIC_COUNT
        invariant 0 <= i <= ASIC_COUNT && bus.earlyEnables == old(bus.earlyEnables)
        invariant bus.rashDividers == old(bus.rashDividers)
        invariant forall j :: 0 <= j < i ==> bus.Proven(WIRE_IDS[j], RESULT_CONTROL, DISABLED)
      {
        report := WriteAndVerify(bus, WIRE_IDS[i], REPORTING_OFF, 0, false);
        if report.outcome != Good {
          return;
        }
        assert Shows(bus.proven, WIRE_IDS[i], REPORTING_OFF[0].register, REPORTING_OFF[0].value);
        i := i + 1;
      }
      report := GOOD;
    }

    /** One batch: commit a pair on every ASIC, one after the other. */
    method CommitBatch(engines: BalancedRamp.Ramp, pair: Pair, completed: nat, ghost sweeping: bool)
      returns (report: Report)
      requires bus.ReportingDisabled() && engines.Valid()
      requires sweeping ==> BalancedRamp.Sweeping(engines, pair.index, 0)
      modifies bus`openCommits, bus`commits, bus`acts, engines, engines.ops
      ensures engines.Valid() && bus.openCommits == old(bus.openCommits)
      ensures bus.commits <= old(bus.commits) + ASIC_COUNT
      ensures sweeping ==> BalancedRamp.Swept(engines)
      ensures report.outcome == Good ==>
                && bus.commits == old(bus.commits) + ASIC_COUNT
                && (sweeping ==> BalancedRamp.Sweeping(engines, pair.index + 1, 0))
      ensures report.outcome != Good ==> report.outcome == Bad && report.reason == BalancedPairCommit && engines.failed
      ensures report.outcome != Good && sweeping && pair.index < PAIR_COUNT && BalancedRamp.PairIsExact(pair) ==>
                BalancedRamp.IsBlamed(engines.failure, engines.ops.trace, report.asic)
    {
      hide BalancedRamp.Sweeping, BalancedRamp.Swept, BalancedRamp.Ramp.Valid, BalancedRamp.IsBlamed;
      hide BalancedRamp.PairIsExact;
      SweepingIsSwept(engines, pair.index, sweeping);
      var i := 0;
      while i < ASIC_COUNT
        invariant 0 <= i <= ASIC_COUNT && engines.Valid()
        invariant bus.openCommits == old(bus.openCommits) && bus.commits == old(bus.commits) + i
        invariant sweeping ==> BalancedRamp.Sweeping(engines, pair.index, i) && BalancedRamp.Swept(engines)
      {
        bus.NoteCommit();
        var ok := BalancedRamp.CommitNext(engines, i, pair, sweeping);
        if !ok {
          return Report(Bad, BalancedPairCommit, WIRE_IDS[i], completed + i);
        }
        i := i + 1;
      }
      if sweeping {
        BalancedRamp.NextPairOfSweep(engines, pair.index);
      }
      report := GOOD;
    }

    /** One turn of the ramp's loop: begin the batch, commit it, end it, and judge samples taken since. */
    method RampPair(engines: BalancedRamp.Ramp, pair: Pair, completed: nat, policy: Policy, ghost sweeping: bool)
      returns (report: Report, ghost judgement: Judgement)
      requires bus.ReportingDisabled() && engines.Valid() && policy.IsValid()
      requires sweeping ==> BalancedRamp.Sweeping(engines, pair.index, 0)
      modifies bus`openCommits, bus`commits, bus`acts, bus`answers, bus`readings, bus`shots, engines, engines.ops
      ensures engines.Valid() && bus.openCommits == old(bus.openCommits)
      ensures bus.commits <= old(bus.commits) + ASIC_COUNT && old(bus.readings) <= bus.readings
      ensures old(bus.shots) <= bus.shots
      ensures sweeping ==> BalancedRamp.Swept(engines)
      ensures report.outcome == Bad ==>
                || IsExcused(bus.answers, report, [], 0, judgement.judged, policy, true)
                || (report.reason == BalancedPairCommit &&
                    (sweeping && pair.index < PAIR_COUNT && BalancedRamp.PairIsExact(pair) ==>
                       BalancedRamp.IsBlamed(engines.failure, engines.ops.trace, report.asic)))
      ensures report.outcome == Blocked ==> !bus.can.telemetry || !bus.can.delay
      ensures report.outcome == Good ==>
                && bus.commits == old(bus.commits) + ASIC_COUNT && judgement.commits == bus.commits
                && judgement.Holds(policy, bus.shots, bus.readings) && bus.ReadLast(judgement.judged.since)
                && (sweeping ==> BalancedRamp.Sweeping(engines, pair.index + 1, 0))
    {
      hide BalancedRamp.Sweeping, BalancedRamp.Swept, BalancedRamp.Ramp.Valid, Judged.Accepts;
      hide BalancedRamp.IsBlamed, BalancedRamp.PairIsExact, Refuses, Confirms, Judged.Excuses, IsAcquired;
      SweepingIsSwept(engines, pair.index, sweeping);
      judgement := Judgement(0, UNJUDGED);
      var ok := bus.Hook();
      if !ok {
        return Report(Bad, BalancedBatch, 0, completed), judgement;
      }
      report := CommitBatch(engines, pair, completed, sweeping);
      if report.outcome != Good {
        return;
      }
      ok := bus.Hook();
      if !ok {
        return Report(Bad, BalancedBatch, 0, completed + ASIC_COUNT), judgement;
      }
      // The time is taken after the last commit: no sample from before it can prove the pair safe.
      var committedAt := bus.Now();
      ghost var judged;
      report, judged := VerifyTelemetry(bus, policy, committedAt, true);
      judgement := Judgement(bus.commits, judged);
      if bus.can.telemetry {
        ExcusedByLooks(bus.answers, report, [], 0, judged, policy, true, bus.can.delay);
      }
      if report.outcome != Good {
        report := report.(completed := completed + ASIC_COUNT);
      }
    }

    /** All batches, each judged before the next one is begun. */
    method RampAll(engines: BalancedRamp.Ramp, pairs: seq<Pair>, policy: Policy, ghost sweeping: bool)
      returns (report: Report, ghost judgements: seq<Judgement>, ghost last: Judged)
      requires bus.ReportingDisabled() && engines.Valid() && policy.IsValid() && BalancedRamp.TableIsExact(pairs)
      requires sweeping ==> BalancedRamp.Sweeping(engines, 0, 0)
      modifies bus`openCommits, bus`commits, bus`acts, bus`answers, bus`readings, bus`shots, engines, engines.ops
      ensures engines.Valid() && bus.openCommits == old(bus.openCommits)
      ensures EachJudged(judgements, policy, old(bus.commits), bus.shots, bus.readings)
      ensures bus.commits <= old(bus.commits) + ASIC_COUNT * (|judgements| + 1)
      ensures sweeping ==> BalancedRamp.Swept(engines)
      ensures report.outcome == Good ==>
                |judgements| == PAIR_COUNT && (sweeping ==> BalancedRamp.Sweeping(engines, PAIR_COUNT, 0))
      ensures report.outcome == Bad ==>
                || IsExcused(bus.answers, report, [], 0, last, policy, true)
                || (report.reason == BalancedPairCommit &&
                    (sweeping ==> BalancedRamp.IsBlamed(engines.failure, engines.ops.trace, report.asic)))
      ensures report.outcome == Blocked ==> !bus.can.telemetry || !bus.can.delay
    {
      hide BalancedRamp.Sweeping, BalancedRamp.Swept, BalancedRamp.Ramp.Valid, BalancedRamp.TableIsExact,
          Judged.Accepts, Judgement.Holds, BalancedRamp.IsBlamed, BalancedRamp.PairIsExact, IsExcused;
      TableIsInOrder(pairs);
      SweepingIsSwept(engines, 0, sweeping);
      judgements, last := [], UNJUDGED;
      var pair := 0;
      while pair < PAIR_COUNT
        invariant 0 <= pair <= PAIR_COUNT && engines.Valid() && bus.openCommits == old(bus.openCommits)
        invariant sweeping ==> BalancedRamp.Sweeping(engines, pair, 0) && BalancedRamp.Swept(engines)
        invariant |judgements| == pair && EachJudged(judgements, policy, old(bus.commits), bus.shots, bus.readings)
        invariant bus.commits == old(bus.commits) + ASIC_COUNT * pair
      {
        ghost var judgement, shots, readings := Judgement(0, UNJUDGED), bus.shots, bus.readings;
        report, judgement := RampPair(engines, pairs[pair], ASIC_COUNT * pair, policy, sweeping);
        last := judgement.judged;
        forall p | 0 <= p < |judgements|
          ensures judgements[p].Holds(policy, bus.shots, bus.readings)
        {
          HoldsLater(judgements[p], policy, shots, readings, bus.shots, bus.readings);
        }
        if report.outcome != Good {
          return;
        }
        judgements := judgements + [judgement];
        pair := pair + 1;
      }
      report := GOOD;
    }

    /** Ramp all engines up pair by pair, with result reporting proven closed throughout and all four ASICs
        judged safe and locked after every pair before the next one is begun. */
    method StageRamp(engines: BalancedRamp.Ramp, pairs: seq<Pair>, policy: Policy)
      returns (report: Report, ghost judgements: seq<Judgement>, ghost last: Judged)
      requires Valid() && engines.Valid()
      modifies this`ramp, this`running, bus, engines, engines.ops
      ensures Valid() && engines.Valid() && !running
      ensures ramp <==> report.outcome == Good
      ensures !old(clocks) ==> report.outcome == Blocked
      ensures EachJudged(judgements, policy, old(bus.commits), bus.shots, bus.readings)
      ensures bus.commits <= old(bus.commits) + ASIC_COUNT * (|judgements| + 1)
      ensures old(IsFresh(engines)) ==> BalancedRamp.Swept(engines)
      ensures report.outcome == Bad && BalancedRamp.TableIsExact(pairs) && policy.IsValid() && old(IsFresh(engines)) ==>
                || IsExcused(bus.answers, report, REPORTING_OFF, 0, last, policy, true)
                || (report.reason == BalancedPairCommit &&
                    BalancedRamp.IsBlamed(engines.failure, engines.ops.trace, report.asic))
                || (report.reason == ActivationBarrier && exists before ::
                      BalancedRamp.BarrierAtFault(before, engines.ops.trace, engines.parserBaseline,
                          engines.failure.kind))
      ensures report.outcome == Blocked ==>
                !old(clocks) || !bus.can.ramp || !bus.can.telemetry || !bus.can.delay
      ensures report.outcome == Good ==>
                && bus.ReportingDisabled() && |judgements| == PAIR_COUNT
                && RampTrace.Seen(engines.ops.trace, RampTrace.Proven)
                    == RampTrace.Seen(engines.ops.trace, RampTrace.Started)
                && forall i :: 0 <= i < ASIC_COUNT ==> |engines.Running(WIRE_IDS[i])| == ENGINE_COUNT
    {
      hide BalancedRamp.Sweeping, BalancedRamp.Swept, BalancedRamp.Ramp.Valid, BalancedRamp.TableIsExact,
          Judged.Accepts;
      hide BalancedRamp.Ramp.Running, BalancedRamp.IsBlamed, BalancedRamp.PairIsExact, BalancedRamp.BarrierAtFault,
          Deserved, IsExcused, EachJudged;
      NothingJudged(policy, bus.commits, bus.shots, bus.readings);
      ghost var sweeping := IsFresh(engines);
      if sweeping {
        BalancedRamp.FreshIsSweeping(engines);
      }
      SweepingIsSwept(engines, 0, sweeping);
      judgements, last := [], UNJUDGED;
      ramp, running := false, false;
      if !clocks {
        return Report(Blocked, Prerequisite, 0, 0), judgements, last;
      }
      if !BalancedRamp.TableIsExact(pairs) {
        return Report(Bad, TopologyWrong, 0, 0), judgements, last;
      }
      if !bus.can.ramp {
        return Report(Blocked, BalancedPairUnavailable, 0, 0), judgements, last;
      }
      if !policy.IsValid() {
        return Report(Bad, InvalidArgument, 0, 0), judgements, last;
      }
      if !bus.can.telemetry {
        return Report(Blocked, CapabilityUnavailable, 0, 0), judgements, last;
      }
      report := CloseReporting();
      if report.outcome != Good {
        IsDeserved(bus.answers, report, REPORTING_OFF, 0, last, policy, true);
        return;
      }
      report, judgements, last := RampAll(engines, pairs, policy, sweeping);
      if report.outcome != Good {
        StillExcused(bus.answers, report, last, policy);
        return;
      }
      if sweeping {
        SweptAll(engines);
      }
      ghost var started := RampTrace.Seen(engines.ops.trace, RampTrace.Started);
      assert sweeping ==> BalancedRamp.SweepOrdered(started) by { SweptMeansOrdered(engines, sweeping); }
      var ok := BalancedRamp.PassBarrier(engines);
      OrderedMeansSwept(engines, sweeping);
      if !ok {
        return Report(Bad, ActivationBarrier, 0, ASIC_COUNT * PAIR_COUNT), judgements, last;
      }
      ramp := true;
      report := GOOD;
    }

    /** Open result reporting on every ASIC, prove it, and judge samples taken since: mining may begin. */
    method CheckRunning(pairs: seq<Pair>, policy: Policy) returns (report: Report, ghost judged: Judged)
      requires Valid()
      modifies this`running, bus
      ensures Valid()
      ensures policy.IsValid() ==> (running <==> report.outcome == Good)
      ensures policy.IsValid() && !ramp ==> report.outcome == Blocked
      ensures !policy.IsValid() ==> report.outcome == Bad && running == old(running)
      ensures report.outcome == Bad && BalancedRamp.TableIsExact(pairs) && policy.IsValid() ==>
                IsExcused(bus.answers, report, REPORTING_ON, 0, judged, policy, true)
      ensures report.outcome == Blocked ==> !old(ramp) || !bus.can.telemetry || !bus.can.delay
      ensures report.outcome == Good ==>
                && judged.Accepts(policy, true) && judged.IsTimed(bus.shots, bus.readings)
                && bus.ReadLast(judged.since)
                && forall i :: 0 <= i < ASIC_COUNT ==> bus.Proven(WIRE_IDS[i], RESULT_CONTROL, ENABLED)
    {
      hide BalancedRamp.TableIsExact, Judged.Accepts, Deserved, IsExcused, Refuses, Confirms, Judged.Excuses,
          IsAcquired;
      hide TrafficOffShown;
      judged := UNJUDGED;
      if !policy.IsValid() {
        return Report(Bad, InvalidArgument, 0, 0), judged;
      }
      running := false;
      if !ramp {
        return Report(Blocked, Prerequisite, 0, 0), judged;
      }
      if !BalancedRamp.TableIsExact(pairs) {
        return Report(Bad, TopologyWrong, 0, 0), judged;
      }
      if !bus.can.telemetry {
        return Report(Blocked, CapabilityUnavailable, 0, 0), judged;
      }
      var i := 0;
      while i < ASIC_COUNT
        invariant 0 <= i <= ASIC_COUNT && Valid() && !running && ramp
        invariant forall j :: 0 <= j < i ==> bus.Proven(WIRE_IDS[j], RESULT_CONTROL, ENABLED)
      {
        report := WriteAndVerify(bus, WIRE_IDS[i], REPORTING_ON, i, ramp);
        if report.outcome != Good {
          IsDeserved(bus.answers, report, REPORTING_ON, 0, judged, policy, true);
          return;
        }
        assert Shows(bus.proven, WIRE_IDS[i], REPORTING_ON[0].register, REPORTING_ON[0].value);
        i := i + 1;
      }
      var enabledAt := bus.Now();
      report, judged := VerifyTelemetry(bus, policy, enabledAt, true);
      ExcusedByLooks(bus.answers, report, REPORTING_ON, 0, judged, policy, true, bus.can.delay);
      if report.outcome != Good {
        return;
      }
      running := true;
      report := GOOD;
    }
  }

  /** Probe the default address until something is heard, at most five times. */
  method AwaitAnswer(bus: Bus) returns (probe: Probe)
    modifies bus`probes, bus`answers
    ensures old(bus.probes) < bus.probes && bus.probes[|bus.probes| - 1] == Probed(probe, bus.acts)
    ensures |bus.probes| <= |old(bus.probes)| + CHAIN_ATTEMPTS
    ensures probe == NoResponse ==> |bus.probes| == |old(bus.probes)| + CHAIN_ATTEMPTS
    ensures bus.answers != [] && bus.answers[|bus.answers| - 1] == Heard(probe)
    ensures probe == NoResponse ==>
              |bus.answers| >= 5 &&
              forall k :: |bus.answers| - 5 <= k < |bus.answers| ==> bus.answers[k] == Heard(NoResponse)
    ensures forall i :: |old(bus.probes)| <= i < |bus.probes| - 1 ==> bus.probes[i].answer == NoResponse
  {
    probe := bus.ProbeChain();
    var attempt := 1;
    while attempt < CHAIN_ATTEMPTS && probe == NoResponse
      modifies bus`probes, bus`answers
      invariant old(bus.probes) < bus.probes && bus.probes[|bus.probes| - 1] == Probed(probe, bus.acts)
      invariant bus.answers != [] && bus.answers[|bus.answers| - 1] == Heard(probe) && |bus.answers| >= attempt
      invariant probe == NoResponse ==>
                  forall k :: |bus.answers| - attempt <= k < |bus.answers| ==> bus.answers[k] == Heard(NoResponse)
      invariant |bus.probes| == |old(bus.probes)| + attempt && attempt <= CHAIN_ATTEMPTS
      invariant forall i :: |old(bus.probes)| <= i < |bus.probes| - 1 ==> bus.probes[i].answer == NoResponse
    {
      probe := bus.ProbeChain();
      attempt := attempt + 1;
    }
  }

  /** Before each of these acts some ASIC answered the default address. */
  predicate Answered(probes: seq<Probed>, from: nat, to: nat) {
    forall acts: nat :: from <= acts < to ==> Probed(Response, acts) in probes
  }

  lemma NumberDiffers(answer: Answer, asic: nat)
    requires answer.Got? && answer.ok && answer.asic == asic && answer.register == ASIC_ID
    requires answer.value != asic + 0x100
    ensures Differs(answer, asic, [Setting(ASIC_ID, asic + 0x100)])
  {
    assert [Setting(ASIC_ID, asic + 0x100)][0].register == answer.register;
  }

  lemma AnsweredStill(probes: seq<Probed>, probes': seq<Probed>, start: nat, from: nat, to: nat)
    requires start <= |probes| && probes <= probes' && Answered(probes[start..], from, to)
    ensures Answered(probes'[start..], from, to)
  {
    assert probes[start..] <= probes'[start..];
  }

  lemma AnsweredNext(probes: seq<Probed>, probes': seq<Probed>, start: nat, from: nat, acts: nat)
    requires start <= |probes| && probes < probes' && Answered(probes[start..], from, acts)
    requires probes'[|probes'| - 1] == Probed(Response, acts)
    ensures Answered(probes'[start..], from, acts + 1)
  {
    AnsweredStill(probes, probes', start, from, acts);
    assert probes'[start..][|probes'| - 1 - start] == Probed(Response, acts);
  }

  /** A ramp as it is before its first commit. */
  ghost predicate IsFresh(engines: BalancedRamp.Ramp)
    reads engines, engines.ops
  {
    engines.ops.trace == [] && !engines.failed && engines.nextPair == [0, 0, 0, 0]
  }

  /** A good verdict on a batch: the samples were judged at a time read after they were taken, and the time
      they are not older than was read after `commits` commits. */
  datatype Judgement = Judgement(commits: nat, judged: Judged)
  {
    ghost predicate Holds(policy: Policy, shots: seq<seq<Sample>>, readings: set<Reading>) {
      && judged.Accepts(policy, true) && judged.IsTimed(shots, readings)
      && exists r :: r in readings && r.time == judged.since && r.commits == commits
    }
  }

  lemma HoldsLater(judgement: Judgement, policy: Policy, shots: seq<seq<Sample>>, readings: set<Reading>,
                   shots': seq<seq<Sample>>, readings': set<Reading>)
    requires judgement.Holds(policy, shots, readings) && shots <= shots' && readings <= readings'
    ensures judgement.Holds(policy, shots', readings')
  {
    TimedLater(judgement.judged, shots, readings, shots', readings');
  }

  /** After each batch of four commits all four ASICs were judged good, by samples taken since that batch. */
  ghost predicate EachJudged(judgements: seq<Judgement>, policy: Policy, start: nat, shots: seq<seq<Sample>>,
                             readings: set<Reading>)
  {
    forall p :: 0 <= p < |judgements| ==>
      judgements[p].commits == start + ASIC_COUNT * (p + 1) && judgements[p].Holds(policy, shots, readings)
  }

  lemma NothingJudged(policy: Policy, start: nat, shots: seq<seq<Sample>>, readings: set<Reading>)
    ensures EachJudged([], policy, start, shots, readings)
  {
  }

  lemma SweepingIsSwept(engines: BalancedRamp.Ramp, pair: nat, sweeping: bool)
    requires sweeping ==> BalancedRamp.Sweeping(engines, pair, 0)
    ensures sweeping ==> BalancedRamp.Swept(engines)
  {
  }

  lemma SweptMeansOrdered(engines: BalancedRamp.Ramp, sweeping: bool)
    requires sweeping ==> BalancedRamp.Swept(engines)
    ensures sweeping ==> BalancedRamp.SweepOrdered(RampTrace.Seen(engines.ops.trace, RampTrace.Started))
  {
  }

  lemma OrderedMeansSwept(engines: BalancedRamp.Ramp, sweeping: bool)
    requires sweeping ==> BalancedRamp.SweepOrdered(RampTrace.Seen(engines.ops.trace, RampTrace.Started))
    ensures sweeping ==> BalancedRamp.Swept(engines)
  {
  }

  lemma TableIsInOrder(pairs: seq<Pair>)
    requires BalancedRamp.TableIsExact(pairs)
    ensures |pairs| == PAIR_COUNT
    ensures forall k :: 0 <= k < PAIR_COUNT ==> pairs[k].index == k && BalancedRamp.PairIsExact(pairs[k])
  {
  }

  lemma SweptAll(engines: BalancedRamp.Ramp)
    requires BalancedRamp.Sweeping(engines, PAIR_COUNT, 0)
    ensures !engines.failed && engines.nextPair == [PAIR_COUNT, PAIR_COUNT, PAIR_COUNT, PAIR_COUNT]
  {
  }

  lemma LocksStayShown(before: Readbacks, after: Readbacks, asic: nat, touched: seq<Setting>)
    requires LockShown(before, asic, 0) && LockShown(before, asic, 1)
    requires KeepsOthers(before, after, asic, touched) && Disjoint(PLLS_ON, touched)
    ensures LockShown(after, asic, 0) && LockShown(after, asic, 1)
  {
    assert !Names(touched, PLLS_ON[0].register) && !Names(touched, PLLS_ON[1].register);
    assert (asic, PLL0_ENABLE + 1 * PLL_STRIDE).1 == PLLS_ON[1].register;
    assert (asic, PLL0_ENABLE).1 == PLLS_ON[0].register;
  }

  /** Both enable registers have been turned off, and setting dividers turns neither on. */
  lemma BothOff(disabled: set<(nat, nat)>, asic: nat)
    requires forall i :: 0 <= i < |PLLS_OFF| ==> (asic, PLLS_OFF[i].register) in disabled
    ensures (asic, PLL0_ENABLE) in disabled && (asic, PLL0_ENABLE + PLL_STRIDE) in disabled
  {
    assert PLLS_OFF[0].register == PLL0_ENABLE && PLLS_OFF[1].register == PLL0_ENABLE + PLL_STRIDE;
  }

  /** Reading the kept controls back confirms this ASIC's quiet again and leaves the others' standing. */
  lemma TrafficConfirmedAgain(before: Readbacks, after: Readbacks, i: nat)
    requires i < ASIC_COUNT && TrafficOffShown(before)
    requires KeepsOthers(before, after, WIRE_IDS[i], KEPT) && AllShown(after, WIRE_IDS[i], KEPT)
    ensures TrafficOffShown(after)
  {
    assert Shows(after, WIRE_IDS[i], KEPT[0].register, KEPT[0].value);
    forall j | 0 <= j < ASIC_COUNT && j != i
      ensures Shows(after, WIRE_IDS[j], TDM_CONTROL, TRAFFIC_OFF_WORD)
    {
      assert Shows(before, WIRE_IDS[j], TDM_CONTROL, TRAFFIC_OFF_WORD);
      assert (WIRE_IDS[j], TDM_CONTROL).0 == WIRE_IDS[j];
    }
  }

  /** What the lists of the clock stage name, and what they leave alone. */
  lemma ClockSettings()
    ensures Distinct(PLL_DIVIDERS) && Distinct(DLLS_OFF) && Distinct(KEPT) && Distinct(TRAFFIC_OFF)
    ensures StaysQuiet(PLLS_OFF) && StaysQuiet(PLL_DIVIDERS) && StaysQuiet(PLLS_ON) && StaysQuiet(DLLS_OFF)
    ensures StaysClosed(PLLS_OFF) && StaysClosed(PLL_DIVIDERS) && StaysClosed(PLLS_ON) && StaysClosed(DLLS_OFF)
    ensures Disjoint(PLL_DIVIDERS, PLLS_ON) && Disjoint(PLL_DIVIDERS, DLLS_OFF) && Disjoint(PLL_DIVIDERS, KEPT)
    ensures Disjoint(DLLS_OFF, KEPT) && Disjoint(PLLS_ON, DLLS_OFF) && Disjoint(PLLS_ON, KEPT)
    ensures NoDividers(PLLS_OFF) && NoDividers(PLLS_ON) && NoDividers(DLLS_OFF)
    ensures !Names(PLLS_OFF, TDM_CONTROL) && !Names(PLL_DIVIDERS, TDM_CONTROL)
    ensures !Names(PLLS_ON, TDM_CONTROL) && !Names(DLLS_OFF, TDM_CONTROL)
  {
  }

  lemma OthersAreSame(before: Readbacks, after: Readbacks, asic: nat, settings: seq<Setting>, other: nat)
    requires KeepsOthers(before, after, asic, settings)
    ensures SameBut(before, after, other, settings)
  {
    forall register: nat | !Names(settings, register)
      ensures ((other, register) in after <==> (other, register) in before)
      ensures (other, register) in after ==> after[(other, register)] == before[(other, register)]
    {
      assert (other, register).1 == register;
    }
  }
}
