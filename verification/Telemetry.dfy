/** Telemetry samples and the confirmation of successive ones, components/asic/bzm_telemetry.c. What a
    sample's readings amount to is taken as two verdicts on its content. */
module Telemetry {
  import opened Topology

  const MAX_CONFIRMATIONS := 10
  const MAX_COUNT := 255

  datatype Voltage = NotFinite | Millivolts(value: real)

  /** A sample of one ASIC. `valid` is the decoder's verdict on the frame. `clear` is every check on the content
      that must never fail, `safe` the stricter one that also covers the channel between the stacks; neither
      covers age or clock lock. */
  datatype Sample = Sample(received: bool, timestamp: nat, valid: bool, trip: bool, clear: bool, safe: bool,
                           locked: bool,
                           ch0: Voltage, ch1: Voltage)
  {
    predicate Fresh(now: nat, maxAge: nat) {
      received && timestamp <= now && now - timestamp <= maxAge
    }

    /** What a snapshot check asks of a sample. */
    predicate Passes(now: nat, configured: nat, maxAge: nat, locks: bool) {
      received && configured <= timestamp && Fresh(now, maxAge) && clear && (locks ==> locked)
    }

    /** The part of safety that does not depend on when one looks. */
    predicate Sound(locks: bool) {
      safe && (locks ==> locked)
    }

    /** How many anomalies in a row a new sample makes: a trip is as many as are required, a fresh and sound sample
        ends the row, and any other adds one, as far as a byte goes. */
    function Counted(now: nat, maxAge: nat, locks: bool, required: nat, before: nat): nat {
      if trip then required
      else if received && timestamp <= now <= timestamp + maxAge && safe && (locks ==> locked) then 0
      else if before >= 255 then before
      else before + 1
    }

    /** Both stack voltages can be compared. */
    predicate Usable() {
      received && valid && ch0.Millivolts? && ch1.Millivolts?
    }

    /** The stack to start on: the one at the higher voltage, the bottom one when they agree. */
    function First(): Stack
      requires Usable()
    {
      if ch0.value >= ch1.value then Bottom else Top
    }
  }

  /** Every ASIC's sample is there, and none is older than the last one looked at. */
  predicate Orderly(stamps: seq<nat>, store: seq<Sample>)
    requires |stamps| == ASIC_COUNT == |store|
  {
    forall i :: 0 <= i < ASIC_COUNT ==> store[i].received && 0 < store[i].timestamp && stamps[i] <= store[i].timestamp
  }

  const NOTHING := Sample(false, 0, false, false, false, false, false, NotFinite, NotFinite)

  /** What the ASIC at an index reported at a time. */
  type Reports = (nat, nat) -> Sample

  /** A store holds, for each ASIC, nothing or what that ASIC reported at the sample's time. */
  predicate IsStore(store: seq<Sample>, reports: Reports) {
    |store| == ASIC_COUNT && forall i :: 0 <= i < ASIC_COUNT && store[i].received ==>
        store[i] == reports(i, store[i].timestamp)
  }

  datatype Verdict = Confirmed | Pending | Continuous | NoNewSample | Invalid

  /** Consecutive anomalies of each ASIC, and the time of the last sample that was looked at. */
  class Confirmation {
    var counts: seq<nat>
    var stamps: seq<nat>

    /** A count of zero means that the last sample looked at was sound. */
    ghost predicate Valid(reports: Reports, locks: bool)
      reads this
    {
      && |counts| == ASIC_COUNT && |stamps| == ASIC_COUNT
      && forall i :: 0 <= i < ASIC_COUNT && stamps[i] != 0 && counts[i] == 0 ==> reports(i, stamps[i]).Sound(locks)
    }

    constructor (ghost reports: Reports, ghost locks: bool)
      ensures Valid(reports, locks) && counts == [0, 0, 0, 0] && stamps == [0, 0, 0, 0]
    {
      counts, stamps := [0, 0, 0, 0], [0, 0, 0, 0];
    }

    /** Look at every new sample, and judge by what the last ones of each ASIC were like. */
    method Observe(store: seq<Sample>, now: nat, maxAge: nat, locks: bool, required: nat, ghost reports: Reports)
      returns (verdict: Verdict)
      requires Valid(reports, locks) && IsStore(store, reports) && 0 < required
      modifies this
      ensures Valid(reports, locks)
      ensures verdict == Confirmed ==>
                forall i :: 0 <= i < ASIC_COUNT ==>
                    store[i].received && store[i].timestamp != 0 && store[i].Sound(locks)
      ensures verdict == Invalid <==> now == 0 || maxAge == 0 || !Orderly(old(stamps), store)
      ensures verdict != Invalid ==>
                forall i :: 0 <= i < ASIC_COUNT ==>
                  && stamps[i] == store[i].timestamp
                  && counts[i] == if store[i].timestamp == old(stamps)[i] then old(counts)[i]
                                  else store[i].Counted(now, maxAge, locks, required, old(counts)[i])
      ensures verdict == Continuous <==> verdict != Invalid && exists i :: 0 <= i < ASIC_COUNT && counts[i] >= required
      ensures verdict == NoNewSample <==>
                && verdict != Invalid && (forall i :: 0 <= i < ASIC_COUNT ==> counts[i] < required)
                && stamps == old(stamps)
      ensures verdict == Confirmed <==>
                && verdict != Invalid && (forall i :: 0 <= i < ASIC_COUNT ==> counts[i] == 0) && stamps != old(stamps)
    {
      if now == 0 || maxAge == 0 {
        return Invalid;
      }
      var anyNew, i := false, 0;
      while i < ASIC_COUNT
        invariant 0 <= i <= ASIC_COUNT && Valid(reports, locks)
        invariant forall j :: 0 <= j < i ==>
                    && store[j].received && store[j].timestamp != 0 && old(stamps)[j] <= store[j].timestamp
                    && stamps[j] == store[j].timestamp
                    && counts[j] == if store[j].timestamp == old(stamps)[j] then old(counts)[j]
                                    else store[j].Counted(now, maxAge, locks, required, old(counts)[j])
        invariant forall j :: i <= j < ASIC_COUNT ==> stamps[j] == old(stamps)[j] && counts[j] == old(counts)[j]
        invariant anyNew <==> exists j :: 0 <= j < i && stamps[j] != old(stamps)[j]
      {
        var sample := store[i];
        if !sample.received || sample.timestamp == 0 || sample.timestamp < stamps[i] {
          return Invalid;
        }
        if sample.timestamp != stamps[i] {
          anyNew := true;
          stamps := stamps[i := sample.timestamp];
          counts := counts[i :=
            if sample.trip then required
            else if sample.Fresh(now, maxAge) && sample.Sound(locks) then 0
            else if counts[i] < MAX_COUNT then counts[i] + 1
            else counts[i]];
        }
        i := i + 1;
      }
      var highest, continuous := 0, false;
      i := 0;
      while i < ASIC_COUNT
        invariant 0 <= i <= ASIC_COUNT
        invariant forall j :: 0 <= j < i ==> counts[j] <= highest
        invariant highest > 0 ==> exists j :: 0 <= j < i && counts[j] == highest
        invariant continuous <==> exists j :: 0 <= j < i && counts[j] >= required
      {
        if counts[i] > highest {
          highest := counts[i];
        }
        if counts[i] >= required {
          continuous := true;
        }
        i := i + 1;
      }
      verdict := if continuous then Continuous
                 else if !anyNew then NoNewSample
                 else if highest == 0 then Confirmed
                 else Pending;
    }
  }
}
