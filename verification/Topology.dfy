/** The chain of four ASICs and the engines of one, components/asic/bzm_topology.c. The grid of
    coordinates behind the physical ids is not part of this model. */
module Topology {
  const ASIC_COUNT := 4
  const PAIR_COUNT := 118
  const ENGINE_COUNT := 236
  const WIRE_IDS: seq<nat> := [0x0a, 0x14, 0x1e, 0x28]

  /** The logical index of a wire id, ASIC_COUNT when the id is no addressed ASIC. */
  function AsicIndex(id: nat): (index: nat)
    ensures index <= ASIC_COUNT
    ensures index < ASIC_COUNT <==> id in WIRE_IDS
    ensures index < ASIC_COUNT ==> WIRE_IDS[index] == id
    ensures forall i :: 0 <= i < ASIC_COUNT && WIRE_IDS[i] == id ==> index == i
  {
    if id == WIRE_IDS[0] then 0
    else if id == WIRE_IDS[1] then 1
    else if id == WIRE_IDS[2] then 2
    else if id == WIRE_IDS[3] then 3
    else ASIC_COUNT
  }

  datatype Stack = Bottom | Top

  /** An engine's place on its ASIC. Its stack and index in that stack identify it. */
  datatype Location = Location(stack: Stack, index: nat, physicalId: nat)

  datatype Pair = Pair(index: nat, bottom: Location, top: Location)

  /** An engine on one ASIC of the chain. */
  datatype Engine = Engine(asic: nat, stack: Stack, index: nat)
}
