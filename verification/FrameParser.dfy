/** The byte-at-a-time TDM frame parser of components/asic/bzm_frame_parser.c: a pure
    recursive parser over a whole stream, the buffered incremental parser, and the proof
    that feeding bytes in any chunks computes the pure parser. */
module FrameParser {
  import opened Topology
  import opened Integers

  const HEADER_SIZE := 2
  const FRAME_RESULT: uint8 := 0x01
  const FRAME_REGISTER: uint8 := 0x03
  const FRAME_TELEMETRY: uint8 := 0x0d
  const FRAME_NOOP: uint8 := 0x0f
  const RESULT_PAYLOAD_SIZE := 8
  const TELEMETRY_PAYLOAD_SIZE := 8
  const NOOP_PAYLOAD_SIZE := 3
  const MAX_REGISTER_PAYLOAD_SIZE := 32
  const MAX_FRAME_SIZE := HEADER_SIZE + MAX_REGISTER_PAYLOAD_SIZE
  const DISCARD_TRACE_SIZE := 16
  const BROADCAST_ASIC_ID: uint8 := 0xfa

  /** One outstanding register reply length per ASIC; 0 means none is expected. */
  type Expected = s: seq<nat> | |s| == ASIC_COUNT && forall i :: 0 <= i < |s| ==> s[i] <= MAX_REGISTER_PAYLOAD_SIZE
    witness [0, 0, 0, 0]

  datatype Frame = Frame(asic: uint8, kind: uint8, payload: seq<uint8>)

  datatype Event = Discarded(value: uint8, unexpectedRegister: bool) | Emitted(frame: Frame)

  datatype Header = Invalid(unexpectedRegister: bool) | Valid(length: nat)

  datatype Parsed = Parsed(events: seq<Event>, rest: seq<uint8>, expected: Expected)

  // ----- The pure parser -----

  predicate ValidWireId(id: uint8) {
    AsicIndex(id) < ASIC_COUNT || id == BROADCAST_ASIC_ID
  }

  function Classify(expected: Expected, id: uint8, kind: uint8): (h: Header)
    ensures h.Valid? ==> HEADER_SIZE < h.length <= MAX_FRAME_SIZE && ValidWireId(id)
    ensures h.Valid? && kind == FRAME_REGISTER ==> AsicIndex(id) < ASIC_COUNT
  {
    var index := AsicIndex(id);
    if !ValidWireId(id) then Invalid(false)
    else if kind == FRAME_RESULT then Valid(HEADER_SIZE + RESULT_PAYLOAD_SIZE)
    else if kind == FRAME_REGISTER then
      if index == ASIC_COUNT || expected[index] == 0 then Invalid(true)
      else Valid(HEADER_SIZE + expected[index])
    else if kind == FRAME_TELEMETRY then Valid(HEADER_SIZE + TELEMETRY_PAYLOAD_SIZE)
    else if kind == FRAME_NOOP then Valid(HEADER_SIZE + NOOP_PAYLOAD_SIZE)
    else Invalid(false)
  }

  /** A delivered register reply uses up its expectation. */
  function Consume(expected: Expected, f: Frame): Expected {
    var index := AsicIndex(f.asic);
    if f.kind == FRAME_REGISTER && index < ASIC_COUNT then expected[index := 0] else expected
  }

  function FrameOf(bytes: seq<uint8>): Frame
    requires HEADER_SIZE <= |bytes|
  {
    Frame(bytes[0], bytes[1], bytes[HEADER_SIZE..])
  }

  function Prepend(events: seq<Event>, p: Parsed): Parsed {
    p.(events := events + p.events)
  }

  /** The whole-stream parser: no buffer, no chunks. */
  function Parse(expected: Expected, bytes: seq<uint8>): Parsed
    decreases |bytes|
  {
    if |bytes| < HEADER_SIZE then Parsed([], bytes, expected)
    else match Classify(expected, bytes[0], bytes[1])
      case Invalid(unexpected) =>
        Prepend([Discarded(bytes[0], unexpected)], Parse(expected, bytes[1..]))
      case Valid(length) =>
        if |bytes| < length then Parsed([], bytes, expected)
        else
          var f := FrameOf(bytes[..length]);
          Prepend([Emitted(f)], Parse(Consume(expected, f), bytes[length..]))
  }

  /** The bytes on the wire that produced a list of events. */
  function Wire(events: seq<Event>): seq<uint8> {
    if events == [] then [] else WireOf(events[0]) + Wire(events[1..])
  }

  function WireOf(e: Event): seq<uint8> {
    match e
    case Discarded(value, _) => [value]
    case Emitted(f) => Encode(f)
  }

  function Encode(f: Frame): seq<uint8> {
    [f.asic, f.kind] + f.payload
  }

  function EncodeAll(frames: seq<Frame>): seq<uint8> {
    if frames == [] then [] else Encode(frames[0]) + EncodeAll(frames[1..])
  }

  function EmittedAll(frames: seq<Frame>): seq<Event> {
    if frames == [] then [] else [Emitted(frames[0])] + EmittedAll(frames[1..])
  }

  function Frames(events: seq<Event>): seq<Frame> {
    if events == [] then []
    else if events[0].Emitted? then [events[0].frame] + Frames(events[1..])
    else Frames(events[1..])
  }

  function Discards(events: seq<Event>): seq<uint8> {
    if events == [] then []
    else if events[0].Discarded? then [events[0].value] + Discards(events[1..])
    else Discards(events[1..])
  }

  function UnexpectedHeaders(events: seq<Event>): nat {
    if events == [] then 0
    else (if events[0].Discarded? && events[0].unexpectedRegister then 1 else 0) + UnexpectedHeaders(events[1..])
  }

  // ----- Laws of the pure parser -----

  /** One step of the definition of Parse. */
  lemma ParseUnfolds(expected: Expected, bytes: seq<uint8>)
    ensures |bytes| < HEADER_SIZE ==> Parse(expected, bytes) == Parsed([], bytes, expected)
    ensures |bytes| >= HEADER_SIZE ==>
              var h, p := Classify(expected, bytes[0], bytes[1]), Parse(expected, bytes);
              && (h.Invalid? ==> p == Prepend([Discarded(bytes[0], h.unexpectedRegister)], Parse(expected, bytes[1..])))
              && (h.Valid? && |bytes| < h.length ==> p == Parsed([], bytes, expected))
              && (h.Valid? && |bytes| >= h.length ==>
                    var f := FrameOf(bytes[..h.length]);
                    p == Prepend([Emitted(f)], Parse(Consume(expected, f), bytes[h.length..])))
  {
  }

  lemma Associates<T>(a: seq<T>, b: seq<T>, c: seq<T>)
    ensures (a + b) + c == a + (b + c)
  {
  }

  lemma {:induction false} PrependPrepend(a: seq<Event>, b: seq<Event>, p: Parsed)
    ensures Prepend(a, Prepend(b, p)) == Prepend(a + b, p)
  {
    assert a + (b + p.events) == (a + b) + p.events;
  }

  /** A parser that has consumed a prefix and continues on its leftover computes the same
      as one pass over everything. */
  lemma {:induction false} ParseComposes(expected: Expected, a: seq<uint8>, b: seq<uint8>)
    ensures var p := Parse(expected, a);
            Parse(expected, a + b) == Prepend(p.events, Parse(p.expected, p.rest + b))
    decreases |a|
  {
    hide Parse;
    ParseUnfolds(expected, a);
    ParseUnfolds(expected, a + b);
    if |a| >= HEADER_SIZE && Classify(expected, a[0], a[1]).Invalid? {
      var e := Discarded(a[0], Classify(expected, a[0], a[1]).unexpectedRegister);
      assert (a + b)[1..] == a[1..] + b;
      ParseComposes(expected, a[1..], b);
      var q := Parse(expected, a[1..]);
      PrependPrepend([e], q.events, Parse(q.expected, q.rest + b));
    } else if |a| >= HEADER_SIZE && Classify(expected, a[0], a[1]).length <= |a| {
      var length := Classify(expected, a[0], a[1]).length;
      var f := FrameOf(a[..length]);
      assert (a + b)[..length] == a[..length];
      assert (a + b)[length..] == a[length..] + b;
      ParseComposes(Consume(expected, f), a[length..], b);
      var q := Parse(Consume(expected, f), a[length..]);
      PrependPrepend([Emitted(f)], q.events, Parse(q.expected, q.rest + b));
    } else {
      assert [] + Parse(expected, a + b).events == Parse(expected, a + b).events;
    }
  }

  lemma WirePrepend(e: Event, events: seq<Event>)
    ensures Wire([e] + events) == WireOf(e) + Wire(events)
  {
    assert ([e] + events)[1..] == events;
  }

  /** Every byte is discarded once, delivered in exactly one frame, or still pending, in order. */
  lemma {:induction false} ParseConserves(expected: Expected, bytes: seq<uint8>)
    ensures var p := Parse(expected, bytes); Wire(p.events) + p.rest == bytes
    decreases |bytes|
  {
    hide Parse;
    ParseUnfolds(expected, bytes);
    if |bytes| >= HEADER_SIZE {
      var h := Classify(expected, bytes[0], bytes[1]);
      if h.Invalid? {
        ParseConserves(expected, bytes[1..]);
        WireStep(Discarded(bytes[0], h.unexpectedRegister), Parse(expected, bytes[1..]), bytes, 1);
      } else if h.length <= |bytes| {
        var f := FrameOf(bytes[..h.length]);
        ParseConserves(Consume(expected, f), bytes[h.length..]);
        assert Encode(f) == bytes[..h.length];
        WireStep(Emitted(f), Parse(Consume(expected, f), bytes[h.length..]), bytes, h.length);
      }
    }
  }

  lemma WireStep(e: Event, q: Parsed, bytes: seq<uint8>, n: nat)
    requires n <= |bytes| && WireOf(e) == bytes[..n] && Wire(q.events) + q.rest == bytes[n..]
    ensures Wire(Prepend([e], q).events) + q.rest == bytes
  {
    WirePrepend(e, q.events);
    hide Wire, WireOf;
    Associates(WireOf(e), Wire(q.events), q.rest);
  }

  /** What is left over is always shorter than the longest frame and holds nothing that could already be
      parsed, so the incremental parser's buffer can never be full between bytes: it is too short for a
      header, or it begins a frame that is not yet complete. */
  lemma {:induction false} LeftoverIsShortAndStuck(expected: Expected, bytes: seq<uint8>)
    ensures var p := Parse(expected, bytes);
            && |p.rest| < MAX_FRAME_SIZE && Parse(p.expected, p.rest) == Parsed([], p.rest, p.expected)
            && (|p.rest| < HEADER_SIZE ||
                (Classify(p.expected, p.rest[0], p.rest[1]).Valid? &&
                 |p.rest| < Classify(p.expected, p.rest[0], p.rest[1]).length))
    decreases |bytes|
  {
    if |bytes| >= HEADER_SIZE {
      var h := Classify(expected, bytes[0], bytes[1]);
      if h.Invalid? {
        LeftoverIsShortAndStuck(expected, bytes[1..]);
      } else if h.length <= |bytes| {
        LeftoverIsShortAndStuck(Consume(expected, FrameOf(bytes[..h.length])), bytes[h.length..]);
      }
    }
  }

  // ----- Legal frames -----

  /** One of the four addressed ASICs, or the address of those that have none yet. */
  predicate OnTheWire(id: uint8) {
    id as nat in WIRE_IDS || id == 0xfa
  }

  /** A frame's payload has this size: results and telemetry 8 bytes, a NOOP's answer 3, and a register's as
      many as were asked for, of an addressed ASIC only. */
  predicate IsLegalSize(expected: Expected, id: uint8, kind: uint8, size: nat) {
    || (kind == 0x01 && size == 8 && OnTheWire(id))
    || (kind == 0x0d && size == 8 && OnTheWire(id))
    || (kind == 0x0f && size == 3 && OnTheWire(id))
    || (kind == 0x03 && size > 0 && exists i :: 0 <= i < ASIC_COUNT && WIRE_IDS[i] == id as nat && expected[i] == size)
  }

  /** The reply lengths still awaited after some frames: none from an ASIC that has sent a register. */
  predicate Awaits(before: Expected, after: Expected, frames: seq<Frame>) {
    forall i :: 0 <= i < ASIC_COUNT ==> after[i] == if HasReply(frames, WIRE_IDS[i]) then 0 else before[i]
  }

  predicate HasReply(frames: seq<Frame>, asic: nat) {
    exists k :: 0 <= k < |frames| && frames[k].kind == 0x03 && frames[k].asic as nat == asic
  }

  /** Frames a sender may put on the wire, given the reads it was asked for: each of a legal size, and at most
      one register from each ASIC. */
  predicate AllLegal(expected: Expected, frames: seq<Frame>) {
    && (forall k :: 0 <= k < |frames| ==> IsLegal(expected, frames[k]))
    && (forall j, k :: 0 <= j < k < |frames| && frames[j].kind == 0x03 && frames[k].kind == 0x03 ==>
          frames[j].asic != frames[k].asic)
  }

  predicate IsLegal(expected: Expected, f: Frame) {
    IsLegalSize(expected, f.asic, f.kind, |f.payload|)
  }

  /** A header is accepted exactly for the one size its frame may legally have. */
  lemma LegalIsAccepted(expected: Expected, id: uint8, kind: uint8, size: nat)
    ensures Classify(expected, id, kind) == Valid(HEADER_SIZE + size) <==> IsLegalSize(expected, id, kind, size)
  {
    assert forall i :: 0 <= i < ASIC_COUNT && WIRE_IDS[i] == id as nat ==> i == AsicIndex(id as nat);
    if AsicIndex(id as nat) < ASIC_COUNT {
      assert WIRE_IDS[AsicIndex(id as nat)] == id as nat;
    }
  }

  lemma ConsumedIsNotAwaited(expected: Expected, f: Frame)
    ensures Awaits(expected, Consume(expected, f), [f])
  {
    forall i | 0 <= i < ASIC_COUNT
      ensures HasReply([f], WIRE_IDS[i]) <==> f.kind == 0x03 && f.asic as nat == WIRE_IDS[i]
    {
      if f.kind == 0x03 && f.asic as nat == WIRE_IDS[i] {
        assert [f][0].kind == 0x03;
      }
    }
  }

  /** What a header decides, whatever follows it: a frame of a legal size is waited for until it is whole, then
      delivered and its reply no longer awaited; without a legal size the first byte alone is dropped, and
      counted as an unexpected register if that is what it claims to be. */
  lemma HeaderDecides(expected: Expected, bytes: seq<uint8>, size: nat)
    requires |bytes| >= HEADER_SIZE
    ensures IsLegalSize(expected, bytes[0], bytes[1], size) && |bytes| < 2 + size ==>
              Parse(expected, bytes) == Parsed([], bytes, expected)
    ensures IsLegalSize(expected, bytes[0], bytes[1], size) && |bytes| >= 2 + size ==>
              var f := Frame(bytes[0], bytes[1], bytes[2..2 + size]);
              exists after: Expected :: Awaits(expected, after, [f]) &&
                Parse(expected, bytes) == Prepend([Emitted(f)], Parse(after, bytes[2 + size..]))
    ensures (forall n: nat :: !IsLegalSize(expected, bytes[0], bytes[1], n)) ==>
              Parse(expected, bytes) == Prepend([Discarded(bytes[0], bytes[1] == 0x03 && OnTheWire(bytes[0]))],
                                                Parse(expected, bytes[1..]))
  {
    hide Parse, IsLegalSize, Awaits;
    ParseUnfolds(expected, bytes);
    LegalIsAccepted(expected, bytes[0], bytes[1], size);
    var h := Classify(expected, bytes[0], bytes[1]);
    if h.Valid? {
      LegalIsAccepted(expected, bytes[0], bytes[1], h.length - HEADER_SIZE);
    }
    if h == Valid(HEADER_SIZE + size) && |bytes| >= 2 + size {
      var f := FrameOf(bytes[..2 + size]);
      assert f == Frame(bytes[0], bytes[1], bytes[2..2 + size]);
      ConsumedIsNotAwaited(expected, f);
    }
  }

  /** A legal frame first leaves the others legal. */
  lemma LegalRest(expected: Expected, after: Expected, frames: seq<Frame>)
    requires frames != [] && AllLegal(expected, frames) && Awaits(expected, after, [frames[0]])
    ensures AllLegal(after, frames[1..])
  {
    forall k | 0 <= k < |frames[1..]|
      ensures IsLegal(after, frames[1..][k])
    {
      assert IsLegal(expected, frames[k + 1]);
      forall i | 0 <= i < ASIC_COUNT && frames[k + 1].kind == 0x03 && WIRE_IDS[i] == frames[k + 1].asic as nat
        ensures after[i] == expected[i]
      {
        assert !HasReply([frames[0]], WIRE_IDS[i]);
      }
    }
  }

  lemma AwaitsInTurn(before: Expected, between: Expected, after: Expected, frames: seq<Frame>)
    requires frames != [] && Awaits(before, between, [frames[0]]) && Awaits(between, after, frames[1..])
    ensures Awaits(before, after, frames)
  {
    forall i | 0 <= i < ASIC_COUNT
      ensures HasReply(frames, WIRE_IDS[i]) <==>
                HasReply([frames[0]], WIRE_IDS[i]) || HasReply(frames[1..], WIRE_IDS[i])
    {
      if HasReply([frames[0]], WIRE_IDS[i]) {
        assert frames[0].kind == 0x03 && frames[0].asic as nat == WIRE_IDS[i];
      }
      if HasReply(frames[1..], WIRE_IDS[i]) {
        var k :| 0 <= k < |frames[1..]| && frames[1..][k].kind == 0x03 && frames[1..][k].asic as nat == WIRE_IDS[i];
        assert frames[k + 1].kind == 0x03 && frames[k + 1].asic as nat == WIRE_IDS[i];
      }
      if HasReply(frames, WIRE_IDS[i]) {
        var k :| 0 <= k < |frames| && frames[k].kind == 0x03 && frames[k].asic as nat == WIRE_IDS[i];
        assert if k == 0 then [frames[0]][0] == frames[k] else frames[1..][k - 1] == frames[k];
      }
    }
  }

  /** Any sequence of legal frames comes out as it went in, and uses up the expectations it answers. */
  lemma {:induction false} RoundTrip(expected: Expected, frames: seq<Frame>)
    requires AllLegal(expected, frames)
    ensures var p := Parse(expected, EncodeAll(frames));
            p.events == EmittedAll(frames) && p.rest == [] && Awaits(expected, p.expected, frames)
    decreases |frames|
  {
    hide Parse, IsLegalSize, Awaits, HasReply;
    if frames == [] {
      NothingToParse(expected);
    } else {
      var f := frames[0];
      var bytes := EncodeAll(frames);
      var n := HEADER_SIZE + |f.payload|;
      assert bytes[..n] == Encode(f);
      assert bytes[n..] == EncodeAll(frames[1..]);
      assert bytes[2..n] == f.payload;
      assert IsLegal(expected, f);
      HeaderDecides(expected, bytes, |f.payload|);
      var after: Expected :| Awaits(expected, after, [f]) &&
        Parse(expected, bytes) == Prepend([Emitted(f)], Parse(after, bytes[n..]));
      LegalRest(expected, after, frames);
      RoundTrip(after, frames[1..]);
      AwaitsInTurn(expected, after, Parse(after, bytes[n..]).expected, frames);
    }
  }

  lemma NothingToParse(expected: Expected)
    ensures Parse(expected, []) == Parsed([], [], expected) && Awaits(expected, expected, [])
  {
  }

  lemma NoiseIsDropped(expected: Expected, bytes: seq<uint8>)
    requires |bytes| >= HEADER_SIZE && !OnTheWire(bytes[0])
    ensures Parse(expected, bytes) == Prepend([Discarded(bytes[0], false)], Parse(expected, bytes[1..]))
  {
    hide Parse;
    HeaderDecides(expected, bytes, 0);
  }

  /** Line noise that contains no wire id costs exactly its own bytes: every frame sent after it
      is still delivered. */
  lemma {:induction false} Resynchronises(expected: Expected, noise: seq<uint8>, frames: seq<Frame>)
    requires forall i :: 0 <= i < |noise| ==> !OnTheWire(noise[i])
    requires AllLegal(expected, frames) && frames != []
    ensures var p := Parse(expected, noise + EncodeAll(frames));
            p.rest == [] && Frames(p.events) == frames && Discards(p.events) == noise
    decreases |noise|
  {
    hide Parse, AllLegal, OnTheWire, Frames, Discards, EncodeAll;
    var bytes := noise + EncodeAll(frames);
    if noise == [] {
      assert bytes == EncodeAll(frames);
      RoundTrip(expected, frames);
      FramesOfEmittedAll(frames);
    } else {
      assert bytes[1..] == noise[1..] + EncodeAll(frames);
      FirstFrameHasHeader(frames);
      Resynchronises(expected, noise[1..], frames);
      NoiseIsDropped(expected, bytes);
      DiscardFirst(noise[0], Parse(expected, bytes[1..]).events);
    }
  }

  lemma FirstFrameHasHeader(frames: seq<Frame>)
    requires frames != []
    ensures |EncodeAll(frames)| >= HEADER_SIZE
  {
  }

  lemma DiscardFirst(value: uint8, events: seq<Event>)
    ensures Frames([Discarded(value, false)] + events) == Frames(events)
    ensures Discards([Discarded(value, false)] + events) == [value] + Discards(events)
  {
    assert ([Discarded(value, false)] + events)[1..] == events;
  }

  lemma {:induction false} FramesOfEmittedAll(frames: seq<Frame>)
    ensures Frames(EmittedAll(frames)) == frames && Discards(EmittedAll(frames)) == []
  {
    if frames != [] {
      FramesOfEmittedAll(frames[1..]);
      assert EmittedAll(frames)[1..] == EmittedAll(frames[1..]);
    }
  }

  lemma {:induction false} FramesAppend(a: seq<Event>, b: seq<Event>)
    ensures Frames(a + b) == Frames(a) + Frames(b)
  {
    if a == [] {
      assert a + b == b;
    } else {
      FramesAppend(a[1..], b);
      assert (a + b)[1..] == a[1..] + b;
      assert Frames(a + b) == if a[0].Emitted? then [a[0].frame] + (Frames(a[1..]) + Frames(b))
          else Frames(a[1..]) + Frames(b);
    }
  }

  lemma {:induction false} DiscardsAppend(a: seq<Event>, b: seq<Event>)
    ensures Discards(a + b) == Discards(a) + Discards(b)
  {
    if a == [] {
      assert a + b == b;
    } else {
      DiscardsAppend(a[1..], b);
      assert (a + b)[1..] == a[1..] + b;
      assert Discards(a + b) == if a[0].Discarded? then [a[0].value] + (Discards(a[1..]) + Discards(b))
          else Discards(a[1..]) + Discards(b);
    }
  }

  lemma {:induction false} UnexpectedHeadersAppend(a: seq<Event>, b: seq<Event>)
    ensures UnexpectedHeaders(a + b) == UnexpectedHeaders(a) + UnexpectedHeaders(b)
  {
    if a == [] {
      assert a + b == b;
    } else {
      UnexpectedHeadersAppend(a[1..], b);
      assert (a + b)[1..] == a[1..] + b;
    }
  }

  /** One more event changes each projection by that event alone. */
  lemma AppendOne(events: seq<Event>, e: Event)
    ensures Frames(events + [e]) == Frames(events) + (if e.Emitted? then [e.frame] else [])
    ensures Discards(events + [e]) == Discards(events) + (if e.Discarded? then [e.value] else [])
    ensures UnexpectedHeaders(events + [e])
              == UnexpectedHeaders(events) + (if e.Discarded? && e.unexpectedRegister then 1 else 0)
  {
    FramesAppend(events, [e]);
    DiscardsAppend(events, [e]);
    UnexpectedHeadersAppend(events, [e]);
  }

  lemma AppendDiscard(events: seq<Event>, value: uint8, unexpected: bool)
    ensures var longer := events + [Discarded(value, unexpected)];
            && Frames(longer) == Frames(events) && Discards(longer) == Discards(events) + [value]
            && |Discards(longer)| == |Discards(events)| + 1
            && UnexpectedHeaders(longer) == UnexpectedHeaders(events) + (if unexpected then 1 else 0)
  {
    hide Frames, Discards, UnexpectedHeaders;
    AppendOne(events, Discarded(value, unexpected));
    assert Frames(events) + [] == Frames(events);
  }

  // ----- Chunking -----

  function Concat(chunks: seq<seq<uint8>>): seq<uint8> {
    if chunks == [] then [] else chunks[0] + Concat(chunks[1..])
  }

  /** The incremental parser fed chunk by chunk: each step parses its leftover plus the new bytes. */
  function ParseChunks(expected: Expected, buffered: seq<uint8>, chunks: seq<seq<uint8>>): Parsed
    decreases |chunks|
  {
    if chunks == [] then Parsed([], buffered, expected)
    else
      var p := Parse(expected, buffered + chunks[0]);
      Prepend(p.events, ParseChunks(p.expected, p.rest, chunks[1..]))
  }

  /** Incremental equals batch: for every stream and every way of cutting it, the events, the
      leftover and the remaining expectations are those of one pass. `buffered` is any leftover of
      an earlier parse, so nothing in it can be parsed yet. */
  lemma {:induction false} ChunkingIsInvisible(expected: Expected, buffered: seq<uint8>, chunks: seq<seq<uint8>>)
    requires Parse(expected, buffered) == Parsed([], buffered, expected)
    ensures ParseChunks(expected, buffered, chunks) == Parse(expected, buffered + Concat(chunks))
    decreases |chunks|
  {
    hide Parse;
    if chunks == [] {
      assert buffered + Concat(chunks) == buffered;
    } else {
      var first, others := buffered + chunks[0], Concat(chunks[1..]);
      var p := Parse(expected, first);
      LeftoverIsShortAndStuck(expected, first);
      ChunkingIsInvisible(p.expected, p.rest, chunks[1..]);
      ParseComposes(expected, first, others);
      assert buffered + Concat(chunks) == first + others;
    }
  }

  // ----- The incremental parser -----

  /** A call of the frame handler: the frame and the timestamp of the feed that completed it. */
  datatype Delivery = Delivery(frame: Frame, timestamp: nat)

  function Deliveries(frames: seq<Frame>, timestamp: nat): (d: seq<Delivery>)
    ensures |d| == |frames|
  {
    seq(|frames|, i requires 0 <= i < |frames| => Delivery(frames[i], timestamp))
  }

  lemma DeliveriesAppend(a: seq<Frame>, b: seq<Frame>, timestamp: nat)
    ensures Deliveries(a + b, timestamp) == Deliveries(a, timestamp) + Deliveries(b, timestamp)
  {
  }

  function Wrap(x: nat): uint32 {
    x % 0x1_0000_0000
  }

  lemma WrapSuccessor(n: nat)
    ensures Wrap(Wrap(n) + 1) == Wrap(n + 1)
  {
  }

  /** The last n elements of s. */
  function Tail<T>(s: seq<T>, n: nat): seq<T> {
    if |s| <= n then s else s[|s| - n..]
  }

  function Min(a: nat, b: nat): nat {
    if a < b then a else b
  }

  class Parser {
    const buffer: array<uint8>
    var bufferedLength: nat
    var expected: Expected
    var emittedFrames: uint32
    var discardedBytes: uint32
    var emittedFramesAtLastDiscard: uint32
    var unexpectedRegisterHeaders: uint32
    const discardTrace: array<uint8>
    var discardTraceNext: nat
    var discardTraceLength: nat

    /** Everything the parser ever did, and the calls its handler received. */
    ghost var history: seq<Event>
    ghost var delivered: seq<Delivery>

    ghost predicate Valid()
      reads this, buffer, discardTrace
    {
      && buffer.Length == MAX_FRAME_SIZE && discardTrace.Length == DISCARD_TRACE_SIZE && buffer != discardTrace
      && bufferedLength <= buffer.Length
      && emittedFrames == Wrap(|Frames(history)|)
      && discardedBytes == Wrap(|Discards(history)|)
      && unexpectedRegisterHeaders == Wrap(UnexpectedHeaders(history))
      && TraceHolds(Discards(history))
    }

    ghost predicate TraceHolds(discards: seq<uint8>)
      reads this`discardTraceNext, this`discardTraceLength, discardTrace
      requires discardTrace.Length == DISCARD_TRACE_SIZE
    {
      && discardTraceNext == |discards| % DISCARD_TRACE_SIZE
      && discardTraceLength == Min(|discards|, DISCARD_TRACE_SIZE)
      && forall i :: |discards| - discardTraceLength <= i < |discards| ==>
          discardTrace[i % DISCARD_TRACE_SIZE] == discards[i]
    }

    ghost function Buffered(): seq<uint8>
      reads this, buffer
      requires bufferedLength <= buffer.Length
    {
      buffer[..bufferedLength]
    }

    constructor ()
      ensures Valid() && bufferedLength == 0 && fresh(buffer) && fresh(discardTrace)
      ensures Buffered() == [] && expected == [0, 0, 0, 0] && history == [] && delivered == []
    {
      buffer := new uint8[MAX_FRAME_SIZE];
      discardTrace := new uint8[DISCARD_TRACE_SIZE];
      bufferedLength, discardTraceNext, discardTraceLength := 0, 0, 0;
      expected := [0, 0, 0, 0];
      emittedFrames, discardedBytes, emittedFramesAtLastDiscard, unexpectedRegisterHeaders := 0, 0, 0, 0;
      history, delivered := [], [];
    }

    method ExpectRegister(asicId: uint8, payloadLength: nat) returns (accepted: bool)
      requires Valid()
      modifies this`expected
      ensures Valid() && Buffered() == old(Buffered())
      ensures accepted == (AsicIndex(asicId) < ASIC_COUNT && 0 < payloadLength <= MAX_REGISTER_PAYLOAD_SIZE &&
                           old(expected)[AsicIndex(asicId)] == 0)
      ensures expected == if accepted then old(expected)[AsicIndex(asicId) := payloadLength] else old(expected)
    {
      var index := AsicIndex(asicId);
      if index == ASIC_COUNT || payloadLength == 0 || payloadLength > MAX_REGISTER_PAYLOAD_SIZE ||
         expected[index] != 0
      {
        return false;
      }
      expected := expected[index := payloadLength];
      return true;
    }

    method CancelRegister(asicId: uint8) returns (cancelled: bool)
      requires Valid()
      modifies this`expected
      ensures Valid() && Buffered() == old(Buffered())
      ensures cancelled == (AsicIndex(asicId) < ASIC_COUNT && old(expected)[AsicIndex(asicId)] != 0)
      ensures expected == if cancelled then old(expected)[AsicIndex(asicId) := 0] else old(expected)
    {
      var index := AsicIndex(asicId);
      if index == ASIC_COUNT || expected[index] == 0 {
        return false;
      }
      expected := expected[index := 0];
      return true;
    }

    method DiscardPrefix(count: nat)
      requires bufferedLength <= buffer.Length && count <= bufferedLength
      modifies this`bufferedLength, buffer
      ensures bufferedLength == old(bufferedLength) - count
      ensures buffer[..bufferedLength] == old(buffer[count..bufferedLength])
    {
      if count < bufferedLength {
        forall i | 0 <= i < bufferedLength - count {
          buffer[i] := buffer[i + count];
        }
      }
      bufferedLength := bufferedLength - count;
    }

    method RecordDiscard(value: uint8)
      requires discardTrace.Length == DISCARD_TRACE_SIZE && TraceHolds(Discards(history)) && buffer != discardTrace
      modifies this`emittedFramesAtLastDiscard, this`discardTraceNext, this`discardTraceLength, discardTrace
      ensures TraceHolds(Discards(history) + [value])
      ensures emittedFramesAtLastDiscard == emittedFrames
    {
      hide Discards;
      ghost var n := |Discards(history)|;
      emittedFramesAtLastDiscard := emittedFrames;
      discardTrace[discardTraceNext] := value;
      discardTraceNext := (discardTraceNext + 1) % DISCARD_TRACE_SIZE;
      if discardTraceLength < DISCARD_TRACE_SIZE {
        discardTraceLength := discardTraceLength + 1;
      }
      forall i: nat | n + 1 - DISCARD_TRACE_SIZE <= i < n
        ensures i % DISCARD_TRACE_SIZE != n % DISCARD_TRACE_SIZE
      {
        OtherTraceSlot(i, n);
      }
    }

    static lemma OtherTraceSlot(i: nat, n: nat)
      requires n + 1 - DISCARD_TRACE_SIZE <= i < n
      ensures i % DISCARD_TRACE_SIZE != n % DISCARD_TRACE_SIZE
    {
    }

    /** Drop the first buffered byte because no frame can start there. */
    method DropByte(unexpectedRegister: bool)
      requires Valid() && 0 < bufferedLength
      modifies this, buffer, discardTrace
      ensures Valid()
      ensures history == old(history) + [Discarded(old(buffer[0]), unexpectedRegister)]
      ensures Buffered() == old(Buffered())[1..]
      ensures expected == old(expected) && delivered == old(delivered)
    {
      hide Frames, Discards, UnexpectedHeaders, Wrap, TraceHolds;
      WrapSuccessor(|Discards(history)|);
      WrapSuccessor(UnexpectedHeaders(history));
      AppendDiscard(history, buffer[0], unexpectedRegister);
      var value := buffer[0];
      if unexpectedRegister {
        unexpectedRegisterHeaders := Wrap(unexpectedRegisterHeaders + 1);
      }
      RecordDiscard(value);
      DiscardPrefix(1);
      discardedBytes := Wrap(discardedBytes + 1);
      history := history + [Discarded(value, unexpectedRegister)];
    }

    /** Deliver the frame that fills the first `length` buffered bytes. */
    method DeliverFrame(length: nat, timestamp: nat)
      requires Valid() && length <= bufferedLength
      requires bufferedLength >= HEADER_SIZE && Classify(expected, buffer[0], buffer[1]) == Header.Valid(length)
      modifies this, buffer, discardTrace
      ensures Valid()
      ensures var f := FrameOf(old(Buffered())[..length]);
              && history == old(history) + [Emitted(f)]
              && delivered == old(delivered) + [Delivery(f, timestamp)]
              && expected == Consume(old(expected), f)
      ensures Buffered() == old(Buffered())[length..]
    {
      hide Classify, Frames, Discards, UnexpectedHeaders, Wrap;
      WrapSuccessor(|Frames(history)|);
      assert Buffered()[..length] == buffer[..length];
      var f := FrameOf(buffer[..length]);
      AppendOne(history, Emitted(f));
      DiscardPrefix(length);
      if f.kind == FRAME_REGISTER {
        // The source skips a register frame without an addressed ASIC; Classify accepts none.
        expected := Consume(expected, f);
      }
      emittedFrames := Wrap(emittedFrames + 1);
      history := history + [Emitted(f)];
      delivered := delivered + [Delivery(f, timestamp)];
    }

    /** Drain every complete frame from the buffer. Its effect is the pure parser's. */
    method ParseBuffer(timestamp: nat) returns (emitted: nat)
      requires Valid()
      modifies this, buffer, discardTrace
      ensures Valid() && bufferedLength < MAX_FRAME_SIZE
      ensures Ran(old(Parse(expected, Buffered())), old(history), old(delivered), timestamp)
      ensures emitted == |Frames(old(Parse(expected, Buffered())).events)|
    {
      hide Parse, Frames, Discards, UnexpectedHeaders, Deliveries;
      ghost var start := Parsed([], Buffered(), expected);
      ghost var now := start;
      NothingYet(start.expected, start.rest, timestamp);
      emitted := 0;
      while bufferedLength >= HEADER_SIZE
        invariant Valid() && Ran(now, old(history), old(delivered), timestamp)
        invariant Parse(start.expected, start.rest) == Prepend(now.events, Parse(now.expected, now.rest))
        invariant emitted == |Frames(now.events)|
        decreases bufferedLength
      {
        ghost var event;
        var header := Classify(expected, buffer[0], buffer[1]);
        ParseUnfolds(expected, Buffered());
        if header.Invalid? {
          event := Discarded(buffer[0], header.unexpectedRegister);
          DropByte(header.unexpectedRegister);
        } else {
          if bufferedLength < header.length {
            break;
          }
          event := Emitted(FrameOf(Buffered()[..header.length]));
          DeliverFrame(header.length, timestamp);
          emitted := emitted + 1;
        }
        OneMoreEvent(old(history), old(delivered), now, event, timestamp, Parse(expected, Buffered()));
        now := Parsed(now.events + [event], Buffered(), expected);
      }
      ParseUnfolds(expected, Buffered());
      assert now.events + [] == now.events;
    }

    static lemma NothingYet(expected: Expected, bytes: seq<uint8>, timestamp: nat)
      ensures Frames([]) == [] && Deliveries([], timestamp) == []
      ensures Prepend([], Parse(expected, bytes)) == Parse(expected, bytes)
    {
      var p := Parse(expected, bytes);
      assert [] + p.events == p.events;
    }

    static lemma OneMoreEvent(history: seq<Event>, delivered: seq<Delivery>, now: Parsed, e: Event, timestamp: nat,
                              next: Parsed)
      ensures Prepend(now.events, Prepend([e], next)) == Prepend(now.events + [e], next)
      ensures history + now.events + [e] == history + (now.events + [e])
      ensures Frames(now.events + [e]) == Frames(now.events) + (if e.Emitted? then [e.frame] else [])
      ensures delivered + Deliveries(Frames(now.events), timestamp)
                + (if e.Emitted? then [Delivery(e.frame, timestamp)] else [])
           == delivered + Deliveries(Frames(now.events + [e]), timestamp)
    {
      hide Frames;
      PrependPrepend(now.events, [e], next);
      FramesAppendOne(now.events, e);
      Associates(history, now.events, [e]);
      if e.Emitted? {
        DeliveriesAppend(Frames(now.events), [e.frame], timestamp);
        Associates(delivered, Deliveries(Frames(now.events), timestamp), [Delivery(e.frame, timestamp)]);
        assert Deliveries([e.frame], timestamp) == [Delivery(e.frame, timestamp)];
      }
    }

    static lemma FramesAppendOne(events: seq<Event>, e: Event)
      ensures Frames(events + [e]) == Frames(events) + (if e.Emitted? then [e.frame] else [])
    {
      FramesAppend(events, [e]);
    }

    /** The parser has performed exactly the events of p and holds its leftover. */
    ghost predicate Ran(p: Parsed, historyBefore: seq<Event>, deliveredBefore: seq<Delivery>, timestamp: nat)
      reads this, buffer
      requires bufferedLength <= buffer.Length
    {
      && history == historyBefore + p.events
      && delivered == deliveredBefore + Deliveries(Frames(p.events), timestamp)
      && Buffered() == p.rest && expected == p.expected
    }

    /** Feeding a chunk: the buffer is never full, so no byte is ever dropped for lack of room, and
        the chunk is parsed exactly as the pure parser parses leftover plus chunk. An empty chunk
        changes nothing. */
    method Feed(data: seq<uint8>, timestamp: nat) returns (emitted: nat)
      requires Valid() && bufferedLength < MAX_FRAME_SIZE
      modifies this, buffer, discardTrace
      ensures Valid() && bufferedLength < MAX_FRAME_SIZE
      ensures data == [] ==> Ran(Parsed([], old(Buffered()), old(expected)), old(history), old(delivered), timestamp)
      ensures data != [] ==> Ran(old(Parse(expected, Buffered() + data)), old(history), old(delivered), timestamp)
      ensures emitted == |delivered| - |old(delivered)|
    {
      hide Parse, Frames, Discards, UnexpectedHeaders, Deliveries;
      emitted := 0;
      ghost var start, startExpected := Buffered(), expected;
      ghost var now := Parsed([], start, expected);
      NothingYet(expected, start, timestamp);
      for i := 0 to |data|
        invariant Valid() && bufferedLength < MAX_FRAME_SIZE
        invariant now == if i == 0 then Parsed([], start, startExpected) else Parse(startExpected, start + data[..i])
        invariant Ran(now, old(history), old(delivered), timestamp)
        invariant emitted == |Frames(now.events)|
      {
        // The source first drops one byte when the buffer is full; bufferedLength rules that out.
        assert bufferedLength != buffer.Length;
        ghost var p := Parse(expected, Buffered() + [data[i]]);
        buffer[bufferedLength] := data[i];
        bufferedLength := bufferedLength + 1;
        assert Buffered() == now.rest + [data[i]];
        var n := ParseBuffer(timestamp);
        emitted := emitted + n;
        OneMoreByte(startExpected, start, data, i, now, p);
        RunsAppend(old(history), old(delivered), now.events, p.events, timestamp);
        now := Prepend(now.events, p);
      }
      assert data[..|data|] == data;
    }

    static lemma OneMoreByte(expected: Expected, start: seq<uint8>, data: seq<uint8>, i: nat, now: Parsed, p: Parsed)
      requires i < |data|
      requires now == if i == 0 then Parsed([], start, expected) else Parse(expected, start + data[..i])
      requires p == Parse(now.expected, now.rest + [data[i]])
      ensures Prepend(now.events, p) == Parse(expected, start + data[..i + 1])
    {
      hide Parse;
      assert start + data[..i + 1] == start + data[..i] + [data[i]];
      if i == 0 {
        assert start + data[..i] == start;
        assert [] + p.events == p.events;
      } else {
        ParseComposes(expected, start + data[..i], [data[i]]);
      }
    }

    static lemma RunsAppend(history: seq<Event>, delivered: seq<Delivery>, a: seq<Event>, b: seq<Event>, timestamp: nat)
      ensures history + a + b == history + (a + b)
      ensures Frames(a + b) == Frames(a) + Frames(b)
      ensures delivered + Deliveries(Frames(a), timestamp) + Deliveries(Frames(b), timestamp)
           == delivered + Deliveries(Frames(a + b), timestamp)
    {
      hide Frames;
      Associates(history, a, b);
      FramesAppend(a, b);
      DeliveriesAppend(Frames(a), Frames(b), timestamp);
      Associates(delivered, Deliveries(Frames(a), timestamp), Deliveries(Frames(b), timestamp));
    }

    static lemma TraceIndex(n: nat, length: nat, index: nat)
      requires length <= Min(n, DISCARD_TRACE_SIZE) && index < length
      ensures var kept := Min(n, DISCARD_TRACE_SIZE);
              var oldest := (n % DISCARD_TRACE_SIZE + DISCARD_TRACE_SIZE - kept) % DISCARD_TRACE_SIZE;
              (oldest + (kept - length) + index) % DISCARD_TRACE_SIZE == (n - length + index) % DISCARD_TRACE_SIZE
    {
    }

    /** The recent-discard window: the last discarded bytes, oldest first, as many as are wanted,
        kept and available. */
    method RecentDiscards(capacity: nat) returns (output: seq<uint8>)
      requires Valid()
      ensures output == Tail(Discards(history), Min(capacity, DISCARD_TRACE_SIZE))
    {
      hide Discards, Frames, UnexpectedHeaders, Wrap;
      ghost var all := Discards(history);
      var length := if discardTraceLength < capacity then discardTraceLength else capacity;
      var oldest := (discardTraceNext + DISCARD_TRACE_SIZE - discardTraceLength) % DISCARD_TRACE_SIZE;
      var skip := discardTraceLength - length;
      output := [];
      for index := 0 to length
        invariant |output| == index
        invariant forall k :: 0 <= k < index ==> output[k] == all[|all| - length + k]
      {
        TraceIndex(|all|, length, index);
        assert discardTrace[(|all| - length + index) % DISCARD_TRACE_SIZE] == all[|all| - length + index];
        output := output + [discardTrace[(oldest + skip + index) % DISCARD_TRACE_SIZE]];
      }
    }
  }
}
