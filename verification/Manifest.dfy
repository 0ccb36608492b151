/** The image manifest of components/asic/bzm_bridge_update.c: the search for the one window that
    carries the magic, the checks on it, and the canonical window every accepted image contains. */
module Manifest {
  import opened Bytes
  import opened Esp
  import opened Crc32

  const SIZE := 96
  const VERSION_OFFSET := 24
  const CRC_OFFSET := SIZE - 4
  const VERSION_MAX_LENGTH := 63
  const MAGIC: seq<byte> := [0x42, 0x5a, 0x4d, 0x2d, 0x42, 0x52, 0x49, 0x44,
                             0x47, 0x45, 0x2d, 0x46, 0x57, 0, 0, 0]

  datatype Contents = Contents(offset: nat, minor: byte, version: seq<byte>)

  /** What the caller's manifest holds after any rejection. */
  const CLEARED := Contents(0, 0, [])

  type Window = w: seq<byte> | |w| == SIZE witness seq(SIZE, _ => 0)

  predicate MagicAt(image: seq<byte>, i: nat) {
    i + SIZE <= |image| && image[i..i + |MAGIC|] == MAGIC
  }

  ghost predicate OnlyMagicAt(image: seq<byte>, i: nat) {
    MagicAt(image, i) && forall j: nat :: MagicAt(image, j) ==> j == i
  }

  function VersionLength(w: Window): nat {
    w[VERSION_OFFSET - 1] as int
  }

  predicate HeaderOk(w: Window) {
    && w[16] == 1 && w[17] == 96 && Le16(w[18], w[19]) == 1002 && w[20] == 1 && w[21] == 1
    && 0 < VersionLength(w) <= VERSION_MAX_LENGTH
  }

  predicate Printable(b: byte) {
    0x20 <= b <= 0x7e
  }

  predicate TextOk(w: Window)
    requires HeaderOk(w)
  {
    && (forall i :: VERSION_OFFSET <= i < VERSION_OFFSET + VersionLength(w) ==> Printable(w[i]))
    && (forall i :: VERSION_OFFSET + VersionLength(w) <= i < CRC_OFFSET ==> w[i] == 0)
  }

  predicate CrcOk(w: Window) {
    Le32(w[92], w[93], w[94], w[95]) == Crc(w[..CRC_OFFSET])
  }

  predicate ShapeOk(w: Window) {
    HeaderOk(w) && TextOk(w)
  }

  function Decode(w: Window, offset: nat): Contents
    requires HeaderOk(w)
  {
    Contents(offset, w[22], w[VERSION_OFFSET..VERSION_OFFSET + VersionLength(w)])
  }

  method FindMagic(image: seq<byte>) returns (err: Err, offset: nat)
    requires |image| >= SIZE
    ensures err in {Ok, NotFound, InvalidResponse}
    ensures err == Ok ==> OnlyMagicAt(image, offset)
    ensures err == NotFound ==> forall j: nat :: !MagicAt(image, j)
    ensures err == InvalidResponse ==> exists j: nat, k: nat :: j < k && MagicAt(image, j) && MagicAt(image, k)
  {
    var found := false;
    offset := 0;
    for index := 0 to |image| - SIZE + 1
      invariant found ==> offset < index && MagicAt(image, offset)
      invariant forall j: nat :: j < index && MagicAt(image, j) ==> found && j == offset
    {
      if image[index..index + |MAGIC|] != MAGIC {
        continue;
      }
      assert MagicAt(image, index);
      if found {
        return InvalidResponse, 0;
      }
      found, offset := true, index;
    }
    if !found {
      return NotFound, 0;
    }
    return Ok, offset;
  }

  method CheckText(w: Window) returns (ok: bool)
    requires HeaderOk(w)
    ensures ok == TextOk(w)
  {
    var length := VersionLength(w);
    for index := 0 to length
      invariant forall i :: VERSION_OFFSET <= i < VERSION_OFFSET + index ==> Printable(w[i])
    {
      if w[VERSION_OFFSET + index] < 0x20 || w[VERSION_OFFSET + index] > 0x7e {
        assert !Printable(w[VERSION_OFFSET + index]);
        return false;
      }
    }
    for index := VERSION_OFFSET + length to CRC_OFFSET
      invariant forall i :: VERSION_OFFSET + length <= i < index ==> w[i] == 0
    {
      if w[index] != 0 {
        return false;
      }
    }
    return true;
  }

  /** Each verdict is given exactly when it is deserved: the image is accepted if and only if the
      magic starts one complete window and that window is well formed. */
  method Validate(image: seq<byte>) returns (err: Err, manifest: Contents)
    ensures err == Ok <==>
              exists i: nat :: OnlyMagicAt(image, i) && ShapeOk(image[i..i + SIZE]) && CrcOk(image[i..i + SIZE])
    ensures err == NotFound <==> forall i: nat :: !MagicAt(image, i)
    ensures err == InvalidCrc <==>
              exists i: nat :: OnlyMagicAt(image, i) && ShapeOk(image[i..i + SIZE]) && !CrcOk(image[i..i + SIZE])
    ensures err in {Ok, NotFound, InvalidCrc, InvalidResponse}
    ensures err == Ok ==>
              && OnlyMagicAt(image, manifest.offset)
              && HeaderOk(image[manifest.offset..manifest.offset + SIZE])
              && manifest == Decode(image[manifest.offset..manifest.offset + SIZE], manifest.offset)
    ensures err != Ok ==> manifest == CLEARED
  {
    hide Crc, Le32, HeaderOk, TextOk;
    manifest := CLEARED;
    if |image| < SIZE {
      return NotFound, CLEARED;
    }
    var offset;
    err, offset := FindMagic(image);
    if err != Ok {
      return err, CLEARED;
    }
    var encoded: Window := image[offset..offset + SIZE];
    if !HeaderOk(encoded) {
      return InvalidResponse, CLEARED;
    }
    var text := CheckText(encoded);
    if !text {
      return InvalidResponse, CLEARED;
    }
    var crc := ManifestCrc32(encoded[..CRC_OFFSET]);
    if Le32(encoded[92], encoded[93], encoded[94], encoded[95]) != crc {
      return InvalidCrc, CLEARED;
    }
    return Ok, Decode(encoded, offset);
  }

  // ----- The canonical window -----

  predicate ValidVersion(version: seq<byte>) {
    0 < |version| <= VERSION_MAX_LENGTH && forall i :: 0 <= i < |version| ==> Printable(version[i])
  }

  function Header(minor: byte, length: nat): (header: seq<byte>)
    requires length <= VERSION_MAX_LENGTH
    ensures |header| == VERSION_OFFSET
  {
    MAGIC + [1, 96, 0xea, 0x03, 1, 1, minor, length as bv8]
  }

  /** Everything before the CRC. */
  function Body(minor: byte, version: seq<byte>): (body: seq<byte>)
    requires |version| <= VERSION_MAX_LENGTH
    ensures |body| == CRC_OFFSET
  {
    Header(minor, |version|) + version + seq(CRC_OFFSET - VERSION_OFFSET - |version|, _ => 0)
  }

  function Seal(body: seq<byte>): (w: Window)
    requires |body| == CRC_OFFSET
  {
    body + Bytes32(Crc(body))
  }

  lemma LengthByte(n: nat)
    requires n <= VERSION_MAX_LENGTH
    ensures (n as bv8) as int == n
  {
  }

  /** The code accepts exactly the canonical encodings: a window passes every check if and only if
      it is the sealed body of the version and minor number read from it. */
  lemma AcceptedIsCanonical(w: Window)
    requires w[..|MAGIC|] == MAGIC
    ensures ShapeOk(w) && CrcOk(w) <==>
            exists minor, version :: ValidVersion(version) && w == Seal(Body(minor, version))
  {
    if ShapeOk(w) && CrcOk(w) {
      var version := w[VERSION_OFFSET..VERSION_OFFSET + VersionLength(w)];
      SealedIsCanonical(w, w[22], version);
    }
    if minor, version :| ValidVersion(version) && w == Seal(Body(minor, version)) {
      CanonicalIsAccepted(minor, version);
    }
  }

  lemma SealIsUnique(w: Window)
    ensures CrcOk(w) <==> w == Seal(w[..CRC_OFFSET])
  {
    hide Crc, Le32, Bytes32;
    var c := Crc(w[..CRC_OFFSET]);
    assert w == w[..CRC_OFFSET] + [w[92], w[93], w[94], w[95]];
    Bytes32OfLe32(w[92], w[93], w[94], w[95]);
    Le32OfBytes32(c);
    var t := Bytes32(c);
    if w == Seal(w[..CRC_OFFSET]) {
      assert w[92] == t[0] && w[93] == t[1] && w[94] == t[2] && w[95] == t[3];
    }
  }

  lemma HeaderIsCanonical(w: Window)
    requires w[..|MAGIC|] == MAGIC && HeaderOk(w)
    ensures w[..VERSION_OFFSET] == Header(w[22], VersionLength(w))
  {
    BoardVersion(w[18], w[19]);
    assert w[..VERSION_OFFSET] == w[..|MAGIC|] + [w[16], w[17], w[18], w[19], w[20], w[21], w[22], w[23]];
  }

  lemma SealedIsCanonical(w: Window, minor: byte, version: seq<byte>)
    requires w[..|MAGIC|] == MAGIC && ShapeOk(w) && CrcOk(w)
    requires minor == w[22] && version == w[VERSION_OFFSET..VERSION_OFFSET + VersionLength(w)]
    ensures ValidVersion(version) && w == Seal(Body(minor, version))
  {
    hide Header, Le16, Seal, CrcOk;
    HeaderIsCanonical(w);
    var end := VERSION_OFFSET + |version|;
    var padding := w[end..CRC_OFFSET];
    assert padding == seq(CRC_OFFSET - end, _ => 0);
    assert w[..CRC_OFFSET] == w[..VERSION_OFFSET] + version + padding;
    SealIsUnique(w);
    assert forall i :: 0 <= i < |version| ==> version[i] == w[VERSION_OFFSET + i];
  }

  lemma BoardVersion(b0: byte, b1: byte)
    ensures Le16(b0, b1) == 1002 <==> b0 == 0xea && b1 == 0x03
  {
  }

  lemma CanonicalHeader(w: Window, minor: byte, length: nat)
    requires 0 < length <= VERSION_MAX_LENGTH && w[..VERSION_OFFSET] == Header(minor, length)
    ensures w[..|MAGIC|] == MAGIC && HeaderOk(w) && VersionLength(w) == length && w[22] == minor
  {
    var h := w[..VERSION_OFFSET];
    LengthByte(length);
    assert w[..|MAGIC|] == h[..|MAGIC|];
    assert w[16] == h[16] && w[17] == h[17] && w[18] == h[18] && w[19] == h[19];
    assert w[20] == h[20] && w[21] == h[21] && w[22] == h[22] && w[23] == h[23];
    BoardVersion(w[18], w[19]);
  }

  /** What a build seals, the update accepts and reads back. */
  lemma CanonicalIsAccepted(minor: byte, version: seq<byte>)
    requires ValidVersion(version)
    ensures var w := Seal(Body(minor, version));
            && w[..|MAGIC|] == MAGIC && ShapeOk(w) && CrcOk(w)
            && forall offset: nat :: Decode(w, offset) == Contents(offset, minor, version)
  {
    hide Header, HeaderOk, CrcOk;
    var body, w := Body(minor, version), Seal(Body(minor, version));
    var end := VERSION_OFFSET + |version|;
    assert w[..CRC_OFFSET] == body;
    SealIsUnique(w);
    assert body[..VERSION_OFFSET] == Header(minor, |version|);
    assert w[..VERSION_OFFSET] == body[..VERSION_OFFSET];
    CanonicalHeader(w, minor, |version|);
    assert w[VERSION_OFFSET..end] == version;
    assert forall i :: VERSION_OFFSET <= i < end ==> w[i] == version[i - VERSION_OFFSET];
    assert forall i :: end <= i < CRC_OFFSET ==> w[i] == body[i] == 0;
  }

  /** Damage confined to four consecutive bytes ahead of the CRC never passes. */
  lemma DamageIsDetected(w: Window, damaged: Window, at: nat)
    requires CrcOk(w) && w != damaged && at + 4 <= CRC_OFFSET
    requires damaged[..at] == w[..at] && damaged[at + 4..] == w[at + 4..]
    ensures !CrcOk(damaged)
  {
    hide Crc, Le32;
    var before, after := w[..at], w[at + 4..CRC_OFFSET];
    var x, y := w[at..at + 4], damaged[at..at + 4];
    assert w == before + x + w[at + 4..] && damaged == before + y + damaged[at + 4..];
    assert w[at + 4..][..CRC_OFFSET - at - 4] == after;
    assert w[..CRC_OFFSET] == before + x + after && damaged[..CRC_OFFSET] == before + y + after;
    assert forall i :: at + 4 <= i < SIZE ==> damaged[i] == damaged[at + 4..][i - at - 4] == w[i];
    BurstIsDetected(before, x, y, after);
  }
}
