/** Request and response framing of the bridge's control line, components/asic/bzm_bridge.c. */
module BridgeFrame {
  import opened Esp
  import opened Integers

  const HEADER := 6
  const RESPONSE_HEADER := 3

  datatype Request = Request(id: uint8, page: uint8, command: uint8, payload: seq<uint8>)

  function Low(n: nat): uint8 {
    n % 256
  }

  function High(n: nat): uint8 {
    n / 256 % 256
  }

  /** The frame, or nothing when its length has no 16-bit form or no room. */
  function EncodeRequest(r: Request, capacity: nat): seq<uint8> {
    var length := |r.payload| + HEADER;
    if length > 0xffff || length > capacity then []
    else [Low(length), High(length), r.id, 0, r.page, r.command] + r.payload
  }

  function Declared(frame: seq<uint8>): nat
    requires |frame| >= 2
  {
    frame[0] as int + frame[1] as int * 256
  }

  /** The far end: a whole frame, taken apart. */
  function DecodeRequest(frame: seq<uint8>): (Err, Request) {
    if |frame| < HEADER || Declared(frame) != |frame| || frame[3] != 0 then (InvalidResponse, Request(0, 0, 0, []))
    else (Ok, Request(frame[2], frame[4], frame[5], frame[HEADER..]))
  }

  /** A frame is either refused for its size or taken apart into just what went in, and no two requests
      share a frame. */
  lemma RequestRoundTrip(r: Request, capacity: nat)
    ensures EncodeRequest(r, capacity) == [] <==> |r.payload| + HEADER > capacity || |r.payload| + HEADER > 0xffff
    ensures EncodeRequest(r, capacity) != [] ==> DecodeRequest(EncodeRequest(r, capacity)) == (Ok, r)
  {
  }

  /** Codes the bridge answers with, in place of a payload, when a command fails. */
  function ErrorOf(code: uint8): Err {
    if code == 0x10 then Timeout else if code == 0x11 then NotSupported
    else if code == 0x12 || code == 0x13 then InvalidState else Ok
  }

  function DecodeResponse(expectedId: uint8, frame: seq<uint8>): (Err, seq<uint8>) {
    if |frame| < RESPONSE_HEADER then (InvalidArg, [])
    else if Declared(frame) != |frame| || frame[2] != expectedId then (InvalidResponse, [])
    else
      var payload := frame[RESPONSE_HEADER..];
      if |payload| == 1 then (ErrorOf(payload[0]), payload) else (Ok, payload)
  }

  function EncodeResponse(id: uint8, payload: seq<uint8>): seq<uint8> {
    var length := |payload| + RESPONSE_HEADER;
    [Low(length), High(length), id] + payload
  }

  predicate ReadsAsError(payload: seq<uint8>) {
    |payload| == 1 && 0x10 <= payload[0] <= 0x13
  }

  /** A response comes back as its payload exactly when it answers the request made, fits a frame, and is
      not one of the single bytes that stand for failures. */
  lemma ResponseRoundTrip(id: uint8, expectedId: uint8, payload: seq<uint8>)
    ensures DecodeResponse(expectedId, EncodeResponse(id, payload)) == (Ok, payload) <==>
              id == expectedId && |payload| + RESPONSE_HEADER <= 0xffff && !ReadsAsError(payload)
  {
  }

  /** What else the decoder answers, and that error codes are in band: a one-byte payload of 0x10 is taken for a
      timeout, 0x11 for a command not supported, 0x12 and 0x13 for a wrong state. */
  lemma ErrorCodesAreInBand(expectedId: uint8, frame: seq<uint8>)
    ensures |frame| < 3 ==> DecodeResponse(expectedId, frame).0 == InvalidArg
    ensures |frame| >= 3 ==>
              (DecodeResponse(expectedId, frame).0 == InvalidResponse <==>
                 frame[0] as int + 0x100 * frame[1] as int != |frame| || frame[2] != expectedId)
    ensures DecodeResponse(expectedId, EncodeResponse(expectedId, [0x10])).0 == Timeout
    ensures DecodeResponse(expectedId, EncodeResponse(expectedId, [0x11])).0 == NotSupported
    ensures DecodeResponse(expectedId, EncodeResponse(expectedId, [0x12])).0 == InvalidState
    ensures DecodeResponse(expectedId, EncodeResponse(expectedId, [0x13])).0 == InvalidState
  {
  }

  /** Whatever is accepted is the frame of its payload: no other bytes decode to it. */
  lemma AcceptedIsItsFrame(expectedId: uint8, frame: seq<uint8>)
    requires DecodeResponse(expectedId, frame).0 == Ok
    ensures frame == EncodeResponse(expectedId, DecodeResponse(expectedId, frame).1)
  {
    assert frame == frame[..RESPONSE_HEADER] + frame[RESPONSE_HEADER..];
  }
}
