/** The safety-status decoder of components/asic/bzm_bridge.c. A payload is accepted exactly when
    it is the one encoding of a consistent reading, so evidence and verdicts carry no freedom. */
module SafetyStatus {
  import opened Options
  import opened Bytes
  import opened Esp

  const LENGTH := 17

  datatype Stage = BootSafe | Lease | TripLatch
  datatype State = SafeOff | Controlled | FaultLatched
  datatype Fault = NoFault | LeaseExpired | AsicTrip | StatusInvalid
  datatype Runtime = GoodSafeOff | GoodControlled | BadFault | BadLease | BadTripInput | BadUnsafeOutputs
  datatype Production = Good | BadStageDisabled | BadCapabilityGap | BadRuntime

  datatype Status = Status(
    valid: bool, schema: byte, stage: Stage, state: State, fault: Fault, runtime: Runtime,
    production: Production, capabilities: bv16, evidence: bv16, leaseMs: bv32,
    fiveVolt: bool, resetAsserted: bool, fanFull: bool, fanPercent: byte, trip: bool)

  /** What every rejection leaves behind. */
  const INVALIDATED := Status(false, 0, BootSafe, FaultLatched, StatusInvalid, BadFault, BadRuntime,
                              0, 0, 0, false, false, false, 0, false)

  const KNOWN_CAPABILITIES: bv16 := 0xff
  const KNOWN_EVIDENCE: bv16 := 0x7f
  const PRODUCTION_CAPABILITIES: bv16 := 0x70

  // ----- Enumerations on the wire -----

  function StageOf(b: byte): Option<Stage> {
    if b == 0 then Some(BootSafe) else if b == 1 then Some(Lease) else if b == 2 then Some(TripLatch) else None
  }

  function StateOf(b: byte): Option<State> {
    if b == 0 then Some(SafeOff) else if b == 1 then Some(Controlled) else if b == 2 then Some(FaultLatched) else None
  }

  function FaultOf(b: byte): Option<Fault> {
    if b == 0 then Some(NoFault) else if b == 1 then Some(LeaseExpired) else if b == 2 then Some(AsicTrip) else None
  }

  function RuntimeOf(b: byte): Option<Runtime> {
    if b == 0 then Some(GoodSafeOff) else if b == 1 then Some(GoodControlled)
    else if b == 0x80 then Some(BadFault) else if b == 0x81 then Some(BadLease)
    else if b == 0x82 then Some(BadTripInput) else if b == 0x83 then Some(BadUnsafeOutputs) else None
  }

  function ProductionOf(b: byte): Option<Production> {
    if b == 0 then Some(Good) else if b == 0x80 then Some(BadStageDisabled)
    else if b == 0x81 then Some(BadCapabilityGap) else if b == 0x82 then Some(BadRuntime) else None
  }

  // ----- The decoder -----

  function Reject(): (Err, Status) {
    (InvalidResponse, INVALIDATED)
  }

  predicate Within(w: bv16, known: bv16) {
    w & !known == 0
  }

  predicate FlagsWithin(flags: byte) {
    flags & !0x07 == 0
  }

  predicate Flag(flags: byte, mask: byte) {
    flags & mask != 0
  }

  predicate FieldsAreKnown(p: seq<byte>)
    requires |p| == LENGTH
  {
    && p[0] == 1 && StageOf(p[1]).Some? && StateOf(p[2]).Some? && FaultOf(p[3]).Some?
    && RuntimeOf(p[4]).Some? && ProductionOf(p[5]).Some?
    && Within(Le16(p[6], p[7]), KNOWN_CAPABILITIES) && Within(Le16(p[8], p[9]), KNOWN_EVIDENCE)
    && FlagsWithin(p[14]) && p[15] <= 100 && p[16] <= 1
  }

  function Unpack(p: seq<byte>): Status
    requires |p| == LENGTH && FieldsAreKnown(p)
  {
    Status(true, p[0], StageOf(p[1]).value, StateOf(p[2]).value, FaultOf(p[3]).value, RuntimeOf(p[4]).value,
           ProductionOf(p[5]).value, Le16(p[6], p[7]), Le16(p[8], p[9]), Le32(p[10], p[11], p[12], p[13]),
           Flag(p[14], 0x01), Flag(p[14], 0x02), Flag(p[14], 0x04), p[15], p[16] != 0)
  }

  predicate OutputsSafe(s: Status) {
    !s.fiveVolt && s.resetAsserted && s.fanPercent == 100
  }

  predicate LeaseValid(s: Status) {
    s.stage == BootSafe || (s.state == Controlled && s.leaseMs > 0)
  }

  predicate Attests(evidence: bv16, safe: bool, live: bool, tripClear: bool, faultClear: bool, capabilities: bv16) {
    && (evidence & 1 != 0) == safe && (evidence & 2 != 0) == live
    && (evidence & 4 != 0) == tripClear && (evidence & 8 != 0) == faultClear
    && evidence & PRODUCTION_CAPABILITIES == capabilities & PRODUCTION_CAPABILITIES
  }

  predicate EvidenceAgrees(s: Status) {
    && s.fanFull == (s.fanPercent == 100)
    && Attests(s.evidence, OutputsSafe(s), LeaseValid(s), !s.trip, s.fault == NoFault, s.capabilities)
  }

  predicate StateConflicts(s: Status) {
    var faultLatched := s.state == FaultLatched;
    || faultLatched != (s.fault != NoFault)
    || (s.state == SafeOff && !OutputsSafe(s))
    || (faultLatched && (!OutputsSafe(s) || s.leaseMs != 0))
    || (s.stage == BootSafe && (s.leaseMs != 0 || faultLatched))
    || (s.stage != BootSafe && s.state != Controlled && s.leaseMs != 0)
    || (s.stage == Lease && s.fault == AsicTrip)
    || (s.stage == TripLatch && s.trip && !faultLatched)
  }

  function ExpectedRuntime(s: Status): Runtime {
    if s.fault != NoFault then BadFault
    else if s.trip then BadTripInput
    else if s.state == SafeOff then GoodSafeOff
    else if s.stage != BootSafe && !LeaseValid(s) then BadLease
    else GoodControlled
  }

  function ExpectedProduction(s: Status): Production {
    if s.stage != TripLatch then BadStageDisabled
    else if s.runtime != GoodSafeOff && s.runtime != GoodControlled then BadRuntime
    else if s.capabilities != KNOWN_CAPABILITIES then BadCapabilityGap
    else Good
  }

  function Decode(p: seq<byte>): (Err, Status) {
    if |p| != LENGTH || !FieldsAreKnown(p) then Reject()
    else
      var s := Unpack(p);
      if !EvidenceAgrees(s) || StateConflicts(s) then Reject()
      else if s.runtime != ExpectedRuntime(s) then Reject()
      else if s.production != ExpectedProduction(s) then Reject()
      else (Ok, s)
  }

  // ----- What a bridge may be in -----

  /** The independent part of a status: what the bridge measures and holds. */
  datatype Reading = Reading(stage: Stage, state: State, fault: Fault, capabilities: byte, leaseMs: bv32,
                             fiveVolt: bool, resetAsserted: bool, fanPercent: byte, trip: bool)
  {
    predicate Safe() {
      !fiveVolt && resetAsserted && fanPercent == 100
    }

    predicate Live() {
      stage == BootSafe || (state == Controlled && leaseMs > 0)
    }

    /** A latched fault and only a latched fault explains a fault code; it and safe-off need safe
        outputs; a lease is held only in control; each stage allows only its own faults. */
    predicate Consistent() {
      && fault != StatusInvalid && fanPercent <= 100
      && (state == FaultLatched <==> fault != NoFault)
      && (state != Controlled ==> Safe() && leaseMs == 0)
      && (stage == BootSafe ==> leaseMs == 0 && state != FaultLatched)
      && (stage == Lease ==> fault != AsicTrip)
      && (stage == TripLatch && trip ==> state == FaultLatched)
    }

    function Verdict(): Runtime {
      if state == FaultLatched then BadFault
      else if trip then BadTripInput
      else if Safe() && state == SafeOff then GoodSafeOff
      else if Live() then GoodControlled
      else BadLease
    }

    function Production(): Production {
      if stage != TripLatch then BadStageDisabled
      else if Verdict() in {BadFault, BadLease, BadTripInput, BadUnsafeOutputs} then BadRuntime
      else if capabilities == 0xff then Good
      else BadCapabilityGap
    }

    function Evidence(): byte {
      EvidenceByte(Safe(), Live(), !trip, state != FaultLatched, capabilities)
    }

    function Flags(): byte {
      FlagsByte(fiveVolt, resetAsserted, fanPercent == 100)
    }

    function AsStatus(): Status {
      Status(true, 1, stage, state, fault, Verdict(), Production(), capabilities as bv16, Evidence() as bv16, leaseMs,
             fiveVolt, resetAsserted, fanPercent == 100, fanPercent, trip)
    }
  }

  function EvidenceByte(safe: bool, live: bool, tripClear: bool, faultClear: bool, capabilities: byte): byte {
    (if safe then 1 else 0) | (if live then 2 else 0) | (if tripClear then 4 else 0) | (if faultClear then 8 else 0) |
    (capabilities & 0x70)
  }

  function FlagsByte(fiveVolt: bool, resetAsserted: bool, fanFull: bool): byte {
    (if fiveVolt then 1 else 0) | (if resetAsserted then 2 else 0) | (if fanFull then 4 else 0)
  }

  function StageByte(s: Stage): byte {
    match s case BootSafe => 0 case Lease => 1 case TripLatch => 2
  }

  function StateByte(s: State): byte {
    match s case SafeOff => 0 case Controlled => 1 case FaultLatched => 2
  }

  function FaultByte(f: Fault): byte {
    match f case NoFault => 0 case LeaseExpired => 1 case AsicTrip => 2 case StatusInvalid => 0xff
  }

  function RuntimeByte(r: Runtime): byte {
    match r
    case GoodSafeOff => 0 case GoodControlled => 1 case BadFault => 0x80
    case BadLease => 0x81 case BadTripInput => 0x82 case BadUnsafeOutputs => 0x83
  }

  function ProductionByte(v: Production): byte {
    match v case Good => 0 case BadStageDisabled => 0x80 case BadCapabilityGap => 0x81 case BadRuntime => 0x82
  }

  /** The bridge side of the protocol: the one payload that reports a reading. */
  function Encode(r: Reading): (p: seq<byte>)
    ensures |p| == LENGTH
  {
    [1, StageByte(r.stage), StateByte(r.state), FaultByte(r.fault), RuntimeByte(r.Verdict()),
        ProductionByte(r.Production()),
     r.capabilities, 0, r.Evidence(), 0] + Bytes32(r.leaseMs) +
    [r.Flags(), r.fanPercent, if r.trip then 1 else 0]
  }

  function ReadingOf(s: Status): Reading
    requires s.capabilities <= 0xff
  {
    Reading(s.stage, s.state, s.fault, s.capabilities as bv8, s.leaseMs, s.fiveVolt, s.resetAsserted, s.fanPercent,
        s.trip)
  }

  // ----- Laws -----

  /** An evidence word outside whose known bits nothing is set is determined by what it attests. */
  lemma EvidenceIsDetermined(lo: byte, hi: byte, safe: bool, live: bool, tripClear: bool, faultClear: bool,
                             capabilities: byte)
    ensures var w := Le16(lo, hi);
            Within(w, KNOWN_EVIDENCE) && Attests(w, safe, live, tripClear, faultClear, capabilities as bv16)
            <==> lo == EvidenceByte(safe, live, tripClear, faultClear, capabilities) && hi == 0
  {
  }

  lemma FlagsAreDetermined(b: byte, fiveVolt: bool, resetAsserted: bool, fanFull: bool)
    ensures FlagsWithin(b) && Flag(b, 1) == fiveVolt && Flag(b, 2) == resetAsserted && Flag(b, 4) == fanFull
            <==> b == FlagsByte(fiveVolt, resetAsserted, fanFull)
  {
  }

  lemma CapabilitiesAreOneByte(lo: byte, hi: byte)
    ensures Within(Le16(lo, hi), KNOWN_CAPABILITIES) <==> hi == 0
    ensures hi == 0 ==> Le16(lo, hi) == lo as bv16
    ensures (lo as bv16) as bv8 == lo && (lo as bv16 == KNOWN_CAPABILITIES <==> lo == 0xff)
  {
  }


  /** Every check on an unpacked status but the evidence's is consistency plus the two verdicts. */
  lemma ChecksAreConsistency(s: Status)
    requires s.capabilities <= 0xff && s.fault != StatusInvalid && s.fanPercent <= 100
    ensures var r := ReadingOf(s);
            !StateConflicts(s) && s.runtime == ExpectedRuntime(s) && s.production == ExpectedProduction(s)
            <==> r.Consistent() && s.runtime == r.Verdict() && s.production == r.Production()
  {
    CapabilitiesAreOneByte(s.capabilities as bv8, 0);
  }

  lemma CodesRoundTrip(r: Reading)
    requires r.fault != StatusInvalid
    ensures StageOf(StageByte(r.stage)) == Some(r.stage) && StateOf(StateByte(r.state)) == Some(r.state)
    ensures FaultOf(FaultByte(r.fault)) == Some(r.fault) && RuntimeOf(RuntimeByte(r.Verdict())) == Some(r.Verdict())
    ensures ProductionOf(ProductionByte(r.Production())) == Some(r.Production())
  {
  }

  lemma CodesAreCanonical(b: byte)
    ensures StageOf(b).Some? ==> StageByte(StageOf(b).value) == b
    ensures StateOf(b).Some? ==> StateByte(StateOf(b).value) == b
    ensures FaultOf(b).Some? ==> FaultByte(FaultOf(b).value) == b && FaultOf(b).value != StatusInvalid
    ensures RuntimeOf(b).Some? ==> RuntimeByte(RuntimeOf(b).value) == b
    ensures ProductionOf(b).Some? ==> ProductionByte(ProductionOf(b).value) == b
  {
  }

  /** A payload that carries a reading's codes passes the field checks. */
  lemma ReportIsKnown(p: seq<byte>, r: Reading)
    requires r.Consistent() && p == Encode(r)
    ensures FieldsAreKnown(p)
  {
    hide Within, FlagsWithin, Flag, Attests, Le16, Bytes32, EvidenceByte, FlagsByte;
    hide Reading.Verdict, Reading.Production, StageOf, StateOf, FaultOf, RuntimeOf, ProductionOf;
    hide StageByte, StateByte, FaultByte, RuntimeByte, ProductionByte;
    CodesRoundTrip(r);
    CapabilitiesAreOneByte(r.capabilities, 0);
    EvidenceIsDetermined(r.Evidence(), 0, r.Safe(), r.Live(), !r.trip, r.state != FaultLatched, r.capabilities);
    FlagsAreDetermined(r.Flags(), r.fiveVolt, r.resetAsserted, r.fanPercent == 100);
  }

  /** It unpacks to the reading's status. */
  lemma UnpacksTo(p: seq<byte>, r: Reading)
    requires r.Consistent() && p == Encode(r) && FieldsAreKnown(p)
    ensures Unpack(p) == r.AsStatus()
  {
    hide FieldsAreKnown, Flag, Le16, Le32, Bytes32, EvidenceByte, FlagsByte;
    hide Reading.Verdict, Reading.Production, StageOf, StateOf, FaultOf, RuntimeOf, ProductionOf;
    hide StageByte, StateByte, FaultByte, RuntimeByte, ProductionByte;
    CodesRoundTrip(r);
    Le32OfBytes32(r.leaseMs);
    CapabilitiesAreOneByte(r.capabilities, 0);
    CapabilitiesAreOneByte(EvidenceByte(r.Safe(), r.Live(), !r.trip, r.state != FaultLatched, r.capabilities), 0);
    FlagsAreDetermined(r.Flags(), r.fiveVolt, r.resetAsserted, r.fanPercent == 100);
  }

  lemma ReadingOfAsStatus(r: Reading)
    ensures ReadingOf(r.AsStatus()) == r
  {
    hide EvidenceByte, Reading.Verdict, Reading.Production;
    CapabilitiesAreOneByte(r.capabilities, 0);
  }

  lemma EvidenceByteAttests(safe: bool, live: bool, tripClear: bool, faultClear: bool, capabilities: byte)
    ensures Attests(EvidenceByte(safe, live, tripClear, faultClear, capabilities) as bv16,
                    safe, live, tripClear, faultClear, capabilities as bv16)
  {
  }

  lemma EvidenceIsAttested(r: Reading)
    requires r.Consistent()
    ensures EvidenceAgrees(r.AsStatus())
  {
    hide Attests, EvidenceByte, Reading.Verdict, Reading.Production;
    EvidenceByteAttests(OutputsSafe(r.AsStatus()), LeaseValid(r.AsStatus()), !r.AsStatus().trip,
                        r.AsStatus().fault == NoFault, r.capabilities);
  }

  lemma PassesChecks(r: Reading)
    requires r.Consistent()
    ensures var s := r.AsStatus();
            EvidenceAgrees(s) && !StateConflicts(s) && s.runtime == ExpectedRuntime(s) &&
                s.production == ExpectedProduction(s)
  {
    hide EvidenceAgrees, EvidenceByte, StateConflicts, ExpectedRuntime, ExpectedProduction, Reading.Verdict,
        Reading.Production;
    EvidenceIsAttested(r);
    ReadingOfAsStatus(r);
    ChecksAreConsistency(r.AsStatus());
  }

  /** Everything a consistent bridge reports is accepted and read back as it was. */
  lemma ReportIsAccepted(r: Reading)
    requires r.Consistent()
    ensures Decode(Encode(r)) == (Ok, r.AsStatus())
  {
    hide FieldsAreKnown, Unpack, Encode, EvidenceAgrees, StateConflicts, ExpectedRuntime, ExpectedProduction,
        Reading.AsStatus;
    ReportIsKnown(Encode(r), r);
    UnpacksTo(Encode(r), r);
    PassesChecks(r);
  }

  /** Each field an accepted payload carries is the one its reading calls for. */
  lemma AcceptedBytes(p: seq<byte>)
    requires Decode(p).0 == Ok
    ensures var s := Decode(p).1;
            && |p| == LENGTH && s.capabilities <= 0xff && s.fault != StatusInvalid
            && p[6] == s.capabilities as bv8 && p[7] == 0
            && p[8] == EvidenceByte(OutputsSafe(s), LeaseValid(s), !s.trip, s.fault == NoFault, p[6]) && p[9] == 0
            && p[14] == FlagsByte(s.fiveVolt, s.resetAsserted, s.fanPercent == 100)
  {
    hide Within, FlagsWithin, Flag, Attests, Le16, Le32, Bytes32, EvidenceByte, FlagsByte, StateConflicts;
    hide ExpectedRuntime, ExpectedProduction, StageOf, StateOf, RuntimeOf, ProductionOf;
    var s := Decode(p).1;
    CapabilitiesAreOneByte(p[6], p[7]);
    EvidenceIsDetermined(p[8], p[9], OutputsSafe(s), LeaseValid(s), !s.trip, s.fault == NoFault, p[6]);
    FlagsAreDetermined(p[14], s.fiveVolt, s.resetAsserted, s.fanPercent == 100);
  }

  lemma AcceptedIsConsistent(p: seq<byte>)
    requires Decode(p).0 == Ok
    ensures var s := Decode(p).1;
            && s.capabilities <= 0xff && ReadingOf(s).Consistent()
            && s.runtime == ReadingOf(s).Verdict() && s.production == ReadingOf(s).Production()
  {
    hide Within, FlagsWithin, Flag, EvidenceAgrees, Le16, Le32, StateConflicts, ExpectedRuntime, ExpectedProduction;
    hide StageOf, StateOf, RuntimeOf, ProductionOf, Reading.Verdict, Reading.Production;
    AcceptedBytes(p);
    ChecksAreConsistency(Decode(p).1);
  }

  lemma AcceptedCodes(p: seq<byte>)
    requires Decode(p).0 == Ok
    ensures var s := Decode(p).1;
            && |p| == LENGTH && p[0] == 1 && p[1] == StageByte(s.stage) && p[2] == StateByte(s.state) &&
                p[3] == FaultByte(s.fault)
            && p[4] == RuntimeByte(s.runtime) && p[5] == ProductionByte(s.production)
            && p[10..14] == Bytes32(s.leaseMs) && p[15] == s.fanPercent && p[16] == (if s.trip then 1 else 0)
  {
    hide Within, FlagsWithin, Flag, EvidenceAgrees, Le16, Le32, Bytes32, StateConflicts, ExpectedRuntime,
        ExpectedProduction;
    hide StageOf, StateOf, FaultOf, RuntimeOf, ProductionOf;
    hide StageByte, StateByte, FaultByte, RuntimeByte, ProductionByte;
    CodesAreCanonical(p[1]);
    CodesAreCanonical(p[2]);
    CodesAreCanonical(p[3]);
    CodesAreCanonical(p[4]);
    CodesAreCanonical(p[5]);
    Bytes32OfLe32(p[10], p[11], p[12], p[13]);
  }

  /** Everything accepted is what a consistent bridge reports, byte for byte. */
  lemma AcceptedIsReport(p: seq<byte>)
    requires Decode(p).0 == Ok
    ensures var s := Decode(p).1;
            s.capabilities <= 0xff && ReadingOf(s).Consistent() && p == Encode(ReadingOf(s))
  {
    hide Decode, EvidenceByte, FlagsByte, Bytes32;
    hide StageByte, StateByte, FaultByte, RuntimeByte, ProductionByte, Reading.Verdict, Reading.Production;
    AcceptedBytes(p);
    AcceptedIsConsistent(p);
    AcceptedCodes(p);
  }

  /** The decoder accepts exactly the reports of consistent bridges; anything else leaves a fault. */
  lemma AcceptsExactlyReports(p: seq<byte>)
    ensures Decode(p).0 == Ok <==> exists r: Reading :: r.Consistent() && p == Encode(r)
    ensures Decode(p).0 != Ok ==> Decode(p) == (InvalidResponse, INVALIDATED)
  {
    hide FieldsAreKnown, Unpack, Encode, EvidenceAgrees, StateConflicts, ExpectedRuntime, ExpectedProduction,
        Reading.AsStatus;
    if Decode(p).0 == Ok {
      AcceptedIsReport(p);
    }
    if r: Reading :| r.Consistent() && p == Encode(r) {
      ReportIsAccepted(r);
    }
  }

  /** Accepted payloads that report the same reading are the same: evidence and verdicts are free of choice. */
  lemma AcceptedIsCanonical(p: seq<byte>, q: seq<byte>)
    requires Decode(p).0 == Ok && Decode(q).0 == Ok
    requires Decode(p).1.stage == Decode(q).1.stage && Decode(p).1.state == Decode(q).1.state
    requires Decode(p).1.fault == Decode(q).1.fault && Decode(p).1.capabilities == Decode(q).1.capabilities
    requires Decode(p).1.leaseMs == Decode(q).1.leaseMs && Decode(p).1.trip == Decode(q).1.trip
    requires Decode(p).1.fiveVolt == Decode(q).1.fiveVolt && Decode(p).1.resetAsserted == Decode(q).1.resetAsserted
    requires Decode(p).1.fanPercent == Decode(q).1.fanPercent
    ensures p == q
  {
    hide Decode, Encode;
    AcceptedIsReport(p);
    AcceptedIsReport(q);
  }

  /** A production-good verdict is given in exactly these circumstances. */
  lemma ProductionGoodMeans(p: seq<byte>)
    requires Decode(p).0 == Ok
    ensures var s := Decode(p).1;
            s.production == Good <==>
              && s.stage == TripLatch && s.capabilities == KNOWN_CAPABILITIES && s.fault == NoFault && !s.trip
              && ((s.state == SafeOff && OutputsSafe(s)) || (s.state == Controlled && s.leaseMs > 0))
  {
    hide Decode;
    AcceptedIsConsistent(p);
    CapabilitiesAreOneByte(Decode(p).1.capabilities as bv8, 0);
  }

  predicate AllowsFaultClear(s: Status) {
    s.valid && !s.fiveVolt && s.resetAsserted && s.fanFull && s.fanPercent == 100 && !s.trip
  }

  /** A latched fault may be cleared exactly when the trip input has gone away: latching has
      already proved the outputs safe. No rejected payload ever allows it. */
  lemma FaultClearWaitsForTrip(p: seq<byte>)
    ensures AllowsFaultClear(Decode(p).1) ==> Decode(p).0 == Ok
    ensures Decode(p).1.state == FaultLatched && Decode(p).0 == Ok ==>
              (AllowsFaultClear(Decode(p).1) <==> !Decode(p).1.trip)
  {
    hide Within, FlagsWithin, Flag, Attests, Le16, Le32, ExpectedRuntime, ExpectedProduction;
    hide StageOf, StateOf, FaultOf, RuntimeOf, ProductionOf;
  }
}
