/** Programming the bridge's flash over its debug port: components/asic/bzm_bridge_swd.c. The wire
    protocol below the memory accesses is not modelled; any access may fail. */
module FlashPlan {
  import opened Options

  const PAGE := 256
  const CHUNK := 16 * 1024
  const SECTOR := 4096
  const CAPACITY := 2 * 1024 * 1024

  datatype Chunk = Chunk(source: nat, program: nat)
  /** How much of the image goes next: whole pages, or one padded page at the very end. */
  function NextChunk(imageSize: nat, offset: nat): Option<Chunk> {
    if imageSize == 0 || offset >= imageSize || offset % PAGE != 0 then None
    else
      var remaining := imageSize - offset;
      var limited := if remaining < CHUNK then remaining else CHUNK;
      var source := if limited >= PAGE then limited - limited % PAGE else limited;
      Some(Chunk(source, if source < PAGE then PAGE else source))
  }

  /** A chunk programs whole pages, ends at a page or at the end of the image, and takes no more of the
      image than it programs. */
  lemma ChunkIsPages(imageSize: nat, offset: nat)
    requires offset < imageSize && offset % PAGE == 0
    ensures NextChunk(imageSize, offset).Some?
    ensures var c := NextChunk(imageSize, offset).value;
            && 0 < c.source <= c.program <= CHUNK && offset + c.source <= imageSize && c.program % PAGE == 0
            && ((offset + c.source) % PAGE == 0 || offset + c.source == imageSize)
            && (c.source < c.program ==> c.program == PAGE && offset + c.source == imageSize)
            && c.program < c.source + PAGE
            && (c.program == CHUNK || imageSize - (offset + c.source) < PAGE)
  {
  }

  /** The image's size in whole sectors. */
  function EraseLength(imageSize: nat): nat {
    (imageSize + SECTOR - 1) / SECTOR * SECTOR
  }

  lemma EraseCoversPages(imageSize: nat, end: nat)
    requires 0 < imageSize <= CAPACITY && end % PAGE == 0 && end < imageSize + PAGE
    ensures EraseLength(imageSize) % SECTOR == 0
    ensures end <= EraseLength(imageSize) <= CAPACITY && imageSize <= EraseLength(imageSize) < imageSize + SECTOR
  {
  }

  /** The pages of a chunk at an offset. */
  datatype Span = Span(start: nat, length: nat)
  {
    function End(): nat { start + length }
  }

  /** Spans of whole pages, each after the one before: no page is in two of them. */
  predicate InOrder(spans: seq<Span>) {
    && (forall i :: 0 <= i < |spans| ==> spans[i].start % PAGE == 0 && spans[i].length % PAGE == 0)
    && forall i, j :: 0 <= i < j < |spans| ==> spans[i].End() <= spans[j].start
  }

  lemma PageProgrammedOnce(spans: seq<Span>, i: nat, j: nat, a: nat, b: nat)
    requires InOrder(spans) && i < |spans| && j < |spans|
    requires spans[i].start <= a < spans[i].End() && spans[j].start <= b < spans[j].End() && a / PAGE == b / PAGE
    ensures i == j
  {
  }

  datatype Phase = Preparing | Erasing | Programming | Verifying | Resetting

  datatype Report = Report(phase: Phase, completed: nat, total: nat)

  function Rank(p: Phase): nat {
    match p case Preparing => 0 case Erasing => 1 case Programming => 2 case Verifying => 3 case Resetting => 4
  }

  predicate NotBefore(earlier: Report, later: Report) {
    Rank(earlier.phase) < Rank(later.phase) || (earlier.phase == later.phase && earlier.completed <= later.completed)
  }

  /** Progress never goes back, neither in phase nor within one. */
  predicate Progresses(reports: seq<Report>) {
    && (forall i :: 0 <= i < |reports| ==> reports[i].completed <= reports[i].total)
    && forall i :: 0 < i < |reports| ==> NotBefore(reports[i - 1], reports[i])
  }

  lemma OneMoreReport(reports: seq<Report>, r: Report)
    requires Progresses(reports) && r.completed <= r.total && (reports != [] ==> NotBefore(reports[|reports| - 1], r))
    ensures Progresses(reports + [r])
  {
  }

  lemma {:induction false} NeverGoesBack(reports: seq<Report>, i: nat, j: nat)
    requires Progresses(reports) && i <= j < |reports|
    ensures NotBefore(reports[i], reports[j])
  {
    if i < j {
      NeverGoesBack(reports, i, j - 1);
    }
  }
}

/** The device, and the procedure that fills it. */
module Flasher {
  import opened Options
  import opened FlashPlan
  import opened Bytes
  import opened Esp

  function And(a: byte, b: byte): byte {
    a & b
  }

  lemma AndOnes(x: byte)
    ensures And(0xff, x) == x
  {
  }

  /** What one program operation does to NOR flash: bits are cleared, never set. */
  function Programmed(flash: seq<byte>, offset: nat, data: seq<byte>): (r: seq<byte>)
    ensures |r| == |flash|
  {
    seq(|flash|, i requires 0 <= i < |flash| => if offset <= i < offset + |data| then And(flash[i], data[i - offset])
        else flash[i])
  }

  predicate SameOutside(before: seq<byte>, after: seq<byte>, start: nat, end: nat) {
    && |after| == |before|
    && forall i :: 0 <= i < |before| && !(start <= i < end) ==> after[i] == before[i]
  }

  predicate Blank(flash: seq<byte>, start: nat, end: nat) {
    end <= |flash| && forall i :: start <= i < end ==> flash[i] == 0xff
  }

  /** Programming blank bytes writes exactly the data. */
  lemma ProgrammingBlank(flash: seq<byte>, offset: nat, data: seq<byte>)
    requires offset + |data| <= |flash| && Blank(flash, offset, offset + |data|)
    ensures Programmed(flash, offset, data)[offset..offset + |data|] == data
    ensures SameOutside(flash, Programmed(flash, offset, data), offset, offset + |data|)
  {
    hide And;
    forall i | 0 <= i < |data|
      ensures Programmed(flash, offset, data)[offset + i] == data[i]
    {
      AndOnes(data[i]);
    }
  }

  predicate AllOk(calls: seq<Err>) {
    forall i :: 0 <= i < |calls| ==> calls[i] == Ok
  }

  /** An outcome is what the accesses told: fine if all were, and otherwise the error of the last one, which was
      the first to fail. */
  predicate IsTold(calls: seq<Err>, err: Err) {
    if err == Ok then AllOk(calls) else calls != [] && AllOk(calls[..|calls| - 1]) && calls[|calls| - 1] == err
  }

  lemma OneMoreCall(calls: seq<Err>, err: Err)
    requires AllOk(calls)
    ensures IsTold(calls + [err], err)
  {
    assert (calls + [err])[..|calls|] == calls;
  }

  lemma ToldOk(calls: seq<Err>)
    ensures IsTold(calls, Ok) <==> AllOk(calls)
  {
  }

  lemma OneMoreCallIf(calls: seq<Err>, err: Err)
    ensures AllOk(calls) ==> IsTold(calls + [err], err)
  {
    if AllOk(calls) {
      OneMoreCall(calls, err);
    }
  }

  /** The attached device. If it is `honest`, an operation it reports as done is done; if not, or if an
      operation fails, the bytes it was to touch may be anything it could leave them. */
  class Device {
    const honest: bool
    var flash: seq<byte>
    var buffer: seq<byte>
    ghost var programs: seq<Span>
    ghost var reports: seq<Report>
    /** How every access to the device has turned out. */
    ghost var calls: seq<Err>

    ghost predicate Valid()
      reads this
    {
      |flash| == CAPACITY && |buffer| == CHUNK
    }

    constructor (honest: bool, flash: seq<byte>)
      requires |flash| == CAPACITY
      ensures Valid() && this.honest == honest && this.flash == flash && programs == [] && reports == [] &&
              calls == []
    {
      this.honest := honest;
      this.flash := flash;
      buffer := seq(CHUNK, i => 0);
      programs, reports, calls := [], [], [];
    }

    method Progress(phase: Phase, completed: nat, total: nat)
      modifies this`reports
      ensures reports == old(reports) + [Report(phase, completed, total)]
    {
      reports := reports + [Report(phase, completed, total)];
    }

    /** Any of the accesses that do not touch flash. */
    method Access() returns (err: Err)
      modifies this`calls
      ensures AllOk(old(calls)) ==> IsTold(calls, err)
    {
      err := *;
      OneMoreCallIf(calls, err);
      calls := calls + [err];
    }

    method WriteWord(offset: nat, word: bv32) returns (err: Err)
      requires Valid() && offset + 4 <= CHUNK
      modifies this`buffer, this`calls
      ensures Valid() && (err == Ok ==> buffer == old(buffer)[..offset] + Bytes32(word) + old(buffer)[offset + 4..])
      ensures AllOk(old(calls)) ==> IsTold(calls, err)
    {
      err := *;
      OneMoreCallIf(calls, err);
      calls := calls + [err];
      if err == Ok {
        buffer := buffer[..offset] + Bytes32(word) + buffer[offset + 4..];
      } else {
        var landed: bool := *;
        buffer := if landed then buffer[..offset] + Bytes32(word) + buffer[offset + 4..] else buffer;
      }
    }

    method ReadWord(offset: nat) returns (err: Err, word: bv32)
      requires Valid() && offset + 4 <= CAPACITY
      modifies this`calls
      ensures err == Ok ==> Bytes32(word) == flash[offset..offset + 4]
      ensures AllOk(old(calls)) ==> IsTold(calls, err)
    {
      err := *;
      OneMoreCallIf(calls, err);
      calls := calls + [err];
      word := Le32(flash[offset], flash[offset + 1], flash[offset + 2], flash[offset + 3]);
      Bytes32OfLe32(flash[offset], flash[offset + 1], flash[offset + 2], flash[offset + 3]);
    }

    /** The erase operation of the flash stub. */
    method Erase(length: nat) returns (err: Err)
      requires Valid() && length <= CAPACITY
      modifies this`flash, this`calls
      ensures Valid() && SameOutside(old(flash), flash, 0, length)
      ensures err == Ok && honest ==> Blank(flash, 0, length)
      ensures AllOk(old(calls)) ==> IsTold(calls, err)
    {
      err := *;
      OneMoreCallIf(calls, err);
      calls := calls + [err];
      var left: seq<byte> := *;
      var f := flash;
      var done := err == Ok && honest;
      flash := seq(|f|, i requires 0 <= i < |f| => if i < length && done then 0xff else if i < length && i < |left|
          then left[i] else f[i]);
    }

    /** The program operation of the flash stub, from the buffer. */
    method Program(offset: nat, length: nat) returns (err: Err)
      requires Valid() && offset + length <= CAPACITY && length <= CHUNK
      modifies this`flash, this`programs, this`calls
      ensures Valid() && SameOutside(old(flash), flash, offset, offset + length)
      ensures err == Ok && honest ==> flash == Programmed(old(flash), offset, buffer[..length])
      ensures programs == old(programs) + [Span(offset, length)]
      ensures AllOk(old(calls)) ==> IsTold(calls, err)
    {
      hide And;
      err := *;
      OneMoreCallIf(calls, err);
      calls := calls + [err];
      var left: seq<byte> := *;
      programs := programs + [Span(offset, length)];
      var data := if (err == Ok && honest) || |left| < length then buffer[..length] else left[..length];
      flash := Programmed(flash, offset, data);
    }

    /** Copy data into the device's buffer word by word, the last word padded with zeros. */
    method WriteBlock(data: seq<byte>) returns (err: Err)
      requires Valid() && |data| <= CHUNK && AllOk(calls)
      modifies this`buffer, this`calls
      ensures Valid() && (err == Ok ==> buffer[..|data|] == data)
      ensures err == Ok ==> forall i :: |data| <= i < (|data| + 3) / 4 * 4 ==> buffer[i] == 0
      ensures IsTold(calls, err)
    {
      hide Le32, Bytes32;
      var offset := 0;
      while offset < |data|
        invariant 0 <= offset <= (|data| + 3) / 4 * 4 && offset % 4 == 0
        invariant Valid() && AllOk(calls)
        invariant forall i :: 0 <= i < offset ==> buffer[i] == Padded(data, i)
      {
        var word := Le32(Padded(data, offset), Padded(data, offset + 1), Padded(data, offset + 2),
            Padded(data, offset + 3));
        Bytes32OfLe32(Padded(data, offset), Padded(data, offset + 1), Padded(data, offset + 2),
            Padded(data, offset + 3));
        err := WriteWord(offset, word);
        if err != Ok {
          return;
        }
        offset := offset + 4;
      }
      err := Ok;
    }

    /** Compare flash with what it should hold, byte by byte. */
    method VerifyBlock(offset: nat, expected: seq<byte>) returns (err: Err)
      requires Valid() && offset + |expected| <= CAPACITY && offset % 4 == 0 && AllOk(calls)
      modifies this`calls
      ensures err == Ok ==> flash[offset..offset + |expected|] == expected
      ensures IsTold(calls, err) ||
                (AllOk(calls) && err == InvalidCrc && flash[offset..offset + |expected|] != expected)
    {
      hide Le32, Bytes32;
      var done := 0;
      while done < |expected|
        invariant 0 <= done <= (|expected| + 3) / 4 * 4 && done % 4 == 0 && AllOk(calls)
        invariant forall i :: 0 <= i < |expected| && i < done ==> flash[offset + i] == expected[i]
      {
        var word;
        err, word := ReadWord(offset + done);
        if err != Ok {
          return;
        }
        var actual := Bytes32(word);
        var i := 0;
        while i < 4 && done + i < |expected|
          invariant 0 <= i <= 4
          invariant forall k :: 0 <= k < |expected| && k < done + i ==> flash[offset + k] == expected[k]
        {
          assert actual[i] == flash[offset + done..offset + done + 4][i];
          assert flash[offset..offset + |expected|][done + i] == flash[offset + done + i];
          if actual[i] != expected[done + i] {
            return InvalidCrc;
          }
          i := i + 1;
        }
        done := done + 4;
      }
      err := Ok;
    }
  }

  function Padded(data: seq<byte>, i: nat): byte {
    if i < |data| then data[i] else 0
  }

  /** A flash that holds the image up to an offset and is blank from there to the end of the erased range. */
  predicate HoldsUpTo(flash: seq<byte>, image: seq<byte>, offset: nat, erased: nat) {
    offset <= |image| && offset <= erased <= |flash| && flash[..offset] == image[..offset] &&
        Blank(flash, offset, erased)
  }

  function Pad(image: seq<byte>, offset: nat, c: Chunk): seq<byte>
    requires offset + c.source <= |image| && c.source <= c.program
  {
    image[offset..offset + c.source] + seq(c.program - c.source, i => 0xff)
  }

  /** A padded chunk programmed into the blank part brings the image that much further. */
  lemma ChunkAdvances(flash: seq<byte>, image: seq<byte>, offset: nat, c: Chunk, erased: nat)
    requires offset + c.source <= |image| && c.source <= c.program && offset + c.program <= erased
    requires HoldsUpTo(flash, image, offset, erased)
    ensures HoldsUpTo(Programmed(flash, offset, Pad(image, offset, c)), image, offset + c.source, erased)
  {
    hide And, Programmed;
    var data := Pad(image, offset, c);
    var after := Programmed(flash, offset, data);
    ProgrammingBlank(flash, offset, data);
    forall i | 0 <= i < offset + c.source
      ensures after[i] == image[i]
    {
      if i < offset {
        assert after[i] == flash[..offset][i];
      } else {
        assert after[i] == after[offset..offset + |data|][i - offset];
      }
    }
    forall i | offset + c.source <= i < erased
      ensures after[i] == 0xff
    {
      if i < offset + |data| {
        assert after[i] == after[offset..offset + |data|][i - offset];
      }
    }
  }

  predicate Within(spans: seq<Span>, end: nat) {
    forall i :: 0 <= i < |spans| ==> spans[i].End() <= end
  }

  lemma OneMoreSpan(spans: seq<Span>, span: Span, end: nat)
    requires InOrder(spans) && Within(spans, span.start) && span.start % PAGE == 0 && span.length % PAGE == 0
    requires span.End() <= end
    ensures InOrder(spans + [span]) && Within(spans + [span], end) && Within(spans, end)
    ensures Within(spans + [span], span.End())
  {
  }

  lemma OutsideTwice(one: seq<byte>, two: seq<byte>, three: seq<byte>, start: nat, end: nat, erased: nat)
    requires SameOutside(one, two, 0, erased) && SameOutside(two, three, start, end) && end <= erased
    ensures SameOutside(one, three, 0, erased)
  {
  }

  lemma OutsideNone(flash: seq<byte>, erased: nat)
    ensures SameOutside(flash, flash, 0, erased) && InOrder([]) && forall end: nat :: Within([], end)
  {
  }

  lemma WithinMore(spans: seq<Span>, end: nat, end': nat)
    requires Within(spans, end) && end <= end'
    ensures Within(spans, end')
  {
  }

  /** Bring one padded chunk into the device's buffer, and program it from there. */
  method WriteChunk(d: Device, image: seq<byte>, offset: nat, c: Chunk, ghost erased: nat) returns (err: Err)
    requires d.Valid() && AllOk(d.calls) && offset + c.source <= |image| && c.source <= c.program <= CHUNK
    requires offset + c.program <= erased <= CAPACITY
    modifies d
    ensures d.Valid() && SameOutside(old(d.flash), d.flash, offset, offset + c.program)
    ensures d.programs == old(d.programs) || d.programs == old(d.programs) + [Span(offset, c.program)]
    ensures err == Ok ==> d.programs == old(d.programs) + [Span(offset, c.program)]
    ensures d.reports == old(d.reports) && IsTold(d.calls, err)
    ensures err == Ok && d.honest && old(HoldsUpTo(d.flash, image, offset, erased)) ==>
              HoldsUpTo(d.flash, image, offset + c.source, erased)
  {
    hide And, Programmed, HoldsUpTo, AllOk, IsTold;
    err := d.WriteBlock(Pad(image, offset, c));
    if err != Ok {
      return;
    }
    ToldOk(d.calls);
    assert d.buffer[..c.program] == Pad(image, offset, c);
    if HoldsUpTo(d.flash, image, offset, erased) {
      ChunkAdvances(d.flash, image, offset, c, erased);
    }
    err := d.Program(offset, c.program);
  }

  /** The programming loop, over an erased device. */
  method ProgramImage(d: Device, image: seq<byte>) returns (err: Err)
    requires d.Valid() && 0 < |image| <= CAPACITY && d.programs == [] && AllOk(d.calls)
    requires d.honest ==> Blank(d.flash, 0, EraseLength(|image|))
    requires Progresses(d.reports) && d.reports != [] && d.reports[|d.reports| - 1] == Report(Programming, 0, |image|)
    modifies d
    ensures d.Valid() && SameOutside(old(d.flash), d.flash, 0, EraseLength(|image|))
    ensures InOrder(d.programs) && Within(d.programs, EraseLength(|image|))
    ensures Progresses(d.reports) && d.reports != [] && d.reports[|d.reports| - 1].phase == Programming
    ensures IsTold(d.calls, err)
    ensures err == Ok && d.honest ==> HoldsUpTo(d.flash, image, |image|, EraseLength(|image|))
  {
    hide And, Programmed, EraseLength, HoldsUpTo, NextChunk, AllOk, IsTold, Progresses;
    hide SameOutside, InOrder, Within, NotBefore;
    OutsideNone(d.flash, EraseLength(|image|));
    ToldOk(d.calls);
    var size, offset := |image|, 0;
    EraseCoversPages(size, 0);
    StartsBlank(d.flash, image, EraseLength(size));
    err := Ok;
    while offset < size
      invariant 0 <= offset <= size && (offset % PAGE == 0 || offset == size)
      invariant d.Valid() && SameOutside(old(d.flash), d.flash, 0, EraseLength(size))
      invariant InOrder(d.programs) && Within(d.programs, EraseLength(size)) &&
                  (offset < size ==> Within(d.programs, offset))
      invariant Progresses(d.reports) && d.reports != [] &&
                  d.reports[|d.reports| - 1] == Report(Programming, offset, size)
      invariant IsTold(d.calls, err) && err == Ok
      invariant d.honest ==> HoldsUpTo(d.flash, image, offset, EraseLength(size))
    {
      ToldOk(d.calls);
      ChunkIsPages(size, offset);
      var chunk := NextChunk(size, offset).value;
      EraseCoversPages(size, offset + chunk.program);
      ghost var flash, programs := d.flash, d.programs;
      OneMoreSpan(programs, Span(offset, chunk.program), EraseLength(size));
      err := WriteChunk(d, image, offset, chunk, EraseLength(size));
      ToldOk(d.calls);
      OutsideTwice(old(d.flash), flash, d.flash, offset, offset + chunk.program, EraseLength(size));
      if err != Ok {
        return;
      }
      if offset + chunk.source < size {
        WithinMore(d.programs, offset + chunk.program, offset + chunk.source);
      }
      offset := offset + chunk.source;
      OneMoreReport(d.reports, Report(Programming, offset, size));
      d.Progress(Programming, offset, size);
    }
  }

  lemma StartsBlank(flash: seq<byte>, image: seq<byte>, erased: nat)
    ensures Blank(flash, 0, erased) ==> HoldsUpTo(flash, image, 0, erased)
  {
  }

  /** The comparing loop. It passes only a flash that holds every byte of the image. */
  method VerifyImage(d: Device, image: seq<byte>) returns (err: Err)
    requires d.Valid() && 0 < |image| <= CAPACITY && AllOk(d.calls)
    requires Progresses(d.reports) && d.reports != [] && d.reports[|d.reports| - 1] == Report(Verifying, 0, |image|)
    modifies d`reports, d`calls
    ensures Progresses(d.reports) && d.reports != [] && d.reports[|d.reports| - 1].phase == Verifying
    ensures d.reports[|d.reports| - 1].completed <= |image|
    ensures err == Ok ==> d.flash[..|image|] == image
    ensures IsTold(d.calls, err) || (AllOk(d.calls) && err == InvalidCrc && d.flash[..|image|] != image)
  {
    hide AllOk, IsTold;
    ToldOk(d.calls);
    var size, offset := |image|, 0;
    err := Ok;
    while offset < size
      invariant 0 <= offset <= size && (offset % 4 == 0 || offset == size)
      invariant Progresses(d.reports) && d.reports != [] &&
                  d.reports[|d.reports| - 1] == Report(Verifying, offset, size)
      invariant IsTold(d.calls, err) && err == Ok
      invariant d.flash[..offset] == image[..offset]
    {
      ToldOk(d.calls);
      var length := if size - offset > CHUNK then CHUNK else size - offset;
      err := d.VerifyBlock(offset, image[offset..offset + length]);
      if err != Ok {
        assert d.flash[..size][offset..offset + length] == d.flash[offset..offset + length];
        return;
      }
      assert d.flash[..offset + length] == d.flash[..offset] + d.flash[offset..offset + length];
      offset := offset + length;
      OneMoreReport(d.reports, Report(Verifying, offset, size));
      d.Progress(Verifying, offset, size);
    }
  }

  lemma WholeImage(flash: seq<byte>, image: seq<byte>, erased: nat)
    ensures HoldsUpTo(flash, image, |image|, erased) ==> flash[..|image|] == image && Blank(flash, |image|, erased)
  {
    assert image[..|image|] == image;
  }

  lemma NothingDone(erased: nat)
    ensures InOrder([]) && Within([], erased) && Progresses([]) && AllOk([])
  {
  }

  /** The whole procedure on a device just attached. Whatever fails, nothing outside the erased sectors is
      touched, no page is programmed twice, and progress does not go back. Success means that the image was
      read back; on an honest device the rest of the erased sectors is blank too. */
  method FlashImage(d: Device, image: seq<byte>) returns (err: Err)
    requires d.Valid() && d.programs == [] && d.reports == [] && d.calls == []
    modifies d
    ensures d.Valid()
    ensures |image| == 0 || |image| > CAPACITY ==> err == InvalidArg && d.flash == old(d.flash)
    ensures SameOutside(old(d.flash), d.flash, 0, EraseLength(|image|))
    ensures InOrder(d.programs) && Within(d.programs, EraseLength(|image|))
    ensures Progresses(d.reports)
    ensures err == Ok ==>
              && d.flash[..|image|] == image && d.reports != []
              && d.reports[|d.reports| - 1] == Report(Resetting, |image|, |image|)
    ensures 0 < |image| <= CAPACITY ==>
              || IsTold(d.calls, err)
              || (AllOk(d.calls) && err == InvalidCrc && !d.honest && d.flash[..|image|] != image)
    ensures err == Ok && d.honest ==> Blank(d.flash, |image|, EraseLength(|image|))
  {
    hide EraseLength, AllOk, IsTold, Progresses, HoldsUpTo, InOrder, Within;
    NothingDone(EraseLength(|image|));
    if |image| == 0 || |image| > CAPACITY {
      return InvalidArg;
    }
    EraseCoversPages(|image|, 0);
    OneMoreReport(d.reports, Report(Preparing, 0, |image|));
    d.Progress(Preparing, 0, |image|);
    err := d.Access();
    ToldOk(d.calls);
    if err != Ok {
      return;
    }
    err := d.Access();
    ToldOk(d.calls);
    if err == Ok {
      OneMoreReport(d.reports, Report(Erasing, 0, |image|));
      d.Progress(Erasing, 0, |image|);
      err := d.Erase(EraseLength(|image|));
      ToldOk(d.calls);
    }
    OneMoreReport(d.reports, Report(Programming, 0, |image|));
    d.Progress(Programming, 0, |image|);
    if err == Ok {
      err := ProgramImage(d, image);
      ToldOk(d.calls);
      WholeImage(d.flash, image, EraseLength(|image|));
    }
    OneMoreReport(d.reports, Report(Verifying, 0, |image|));
    d.Progress(Verifying, 0, |image|);
    if err == Ok {
      err := VerifyImage(d, image);
      ToldOk(d.calls);
    }
    if err == Ok {
      OneMoreReport(d.reports, Report(Resetting, |image|, |image|));
      d.Progress(Resetting, |image|, |image|);
      err := d.Access();
    }
  }
}
