/** An optional value. */
module Options {
  datatype Option<T> = None | Some(value: T)
}

/** Bytes and words as numbers. */
module Integers {
  type uint8 = x: int | 0 <= x < 0x100
  type uint32 = x: int | 0 <= x < 0x1_0000_0000
}

/** The error codes the bridge code returns. */
module Esp {
  datatype Err = Ok | Fail | NoMem | InvalidArg | InvalidState | InvalidSize | InvalidResponse
               | InvalidCrc | NotFound | NotSupported | Timeout
}

/** Little-endian reads of wire bytes. */
module Bytes {
  type byte = bv8

  function Le16(b0: bv8, b1: bv8): bv16 {
    (b0 as bv16) | ((b1 as bv16) << 8)
  }

  function Le32(b0: bv8, b1: bv8, b2: bv8, b3: bv8): bv32 {
    (b0 as bv32) | ((b1 as bv32) << 8) | ((b2 as bv32) << 16) | ((b3 as bv32) << 24)
  }

  function Bytes32(c: bv32): (t: seq<bv8>)
    ensures |t| == 4
  {
    [(c & 0xff) as bv8, ((c >> 8) & 0xff) as bv8, ((c >> 16) & 0xff) as bv8, ((c >> 24) & 0xff) as bv8]
  }

  lemma Le32OfBytes32(c: bv32)
    ensures var t := Bytes32(c); Le32(t[0], t[1], t[2], t[3]) == c
  {
  }

  lemma Bytes32OfLe32(b0: bv8, b1: bv8, b2: bv8, b3: bv8)
    ensures Bytes32(Le32(b0, b1, b2, b3)) == [b0, b1, b2, b3]
  {
  }
}
