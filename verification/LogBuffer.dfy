/** The log ring of main/log_buffer.c: an array written round and round, addressed by absolute
    position, and read by the console task and by any number of readers with cursors of their own. */
module LogStream {
  /** What the console is sent: log bytes, or a notice that so many were lost. */
  datatype Output = Bytes(data: string) | Dropped(count: nat)

  /** The output is the log from one position to another: its bytes in order, its notices in the
      place of exactly the bytes they count. */
  predicate Replays(log: string, from: nat, out: seq<Output>, to: nat) {
    if out == [] then from == to <= |log|
    else
      match out[|out| - 1]
      case Bytes(data) =>
        |data| <= to <= |log| && log[to - |data|..to] == data && Replays(log, from, out[..|out| - 1], to - |data|)
      case Dropped(count) =>
        count <= to <= |log| && Replays(log, from, out[..|out| - 1], to - count)
  }

  function Printed(out: seq<Output>): string {
    if out == [] then []
    else
      match out[|out| - 1]
      case Bytes(data) => Printed(out[..|out| - 1]) + data
      case Dropped(_) => Printed(out[..|out| - 1])
  }

  function Lost(out: seq<Output>): nat {
    if out == [] then 0
    else
      match out[|out| - 1]
      case Bytes(_) => Lost(out[..|out| - 1])
      case Dropped(count) => Lost(out[..|out| - 1]) + count
  }

  /** Nothing is invented and nothing vanishes unannounced. */
  lemma {:induction false} Conservation(log: string, from: nat, out: seq<Output>, to: nat)
    requires Replays(log, from, out, to)
    ensures |Printed(out)| + Lost(out) == to - from
    ensures Lost(out) == 0 ==> Printed(out) == log[from..to]
  {
    if out != [] {
      var last := out[|out| - 1];
      Conservation(log, from, out[..|out| - 1], to - if last.Bytes? then |last.data| else last.count);
    }
  }

  lemma {:induction false} ReplaysLonger(log: string, more: string, from: nat, out: seq<Output>, to: nat)
    requires Replays(log, from, out, to)
    ensures Replays(log + more, from, out, to)
  {
    if out != [] {
      var last := out[|out| - 1];
      var mid := to - if last.Bytes? then |last.data| else last.count;
      ReplaysLonger(log, more, from, out[..|out| - 1], mid);
      assert (log + more)[mid..to] == log[mid..to];
    }
  }

  lemma ReplaysOneMore(log: string, from: nat, out: seq<Output>, to: nat, o: Output)
    requires Replays(log, from, out, to)
    requires match o
             case Bytes(data) => to + |data| <= |log| && log[to..to + |data|] == data
             case Dropped(count) => to + count <= |log|
    ensures Replays(log, from, out + [o], to + (match o case Bytes(data) => |data| case Dropped(count) => count))
    ensures Lost(out + [o]) == Lost(out) + if o.Dropped? then o.count else 0
  {
    assert (out + [o])[..|out|] == out;
  }

  lemma ReplaysWithin(log: string, from: nat, out: seq<Output>, to: nat)
    requires Replays(log, from, out, to)
    ensures to <= |log|
  {
  }

  // ----- Reads by absolute position -----

  /** The oldest position a ring of this size still holds. */
  function Oldest(total: nat, size: nat): nat {
    if total >= size then total - size else 0
  }

  const RESYNC_LIMIT := 4096

  /** Where an overrun reader resumes: after the first line end among the oldest bytes, if there is one. */
  predicate ResumesAt(log: string, oldest: nat, start: nat)
    requires oldest <= |log|
  {
    var limit := if |log| - oldest < RESYNC_LIMIT then |log| - oldest else RESYNC_LIMIT;
    if '\n' !in log[oldest..oldest + limit] then start == oldest
    else oldest < start <= oldest + limit && log[start - 1] == '\n' && '\n' !in log[oldest..start - 1]
  }

  /** Where a read starts: at the request, no later than the end, unless those bytes are gone. */
  predicate StartsAt(log: string, size: nat, pos: nat, start: nat) {
    var oldest := Oldest(|log|, size);
    if pos >= oldest then start == if pos < |log| then pos else |log|
    else ResumesAt(log, oldest, start)
  }

  /** What one read gives: a slice of the log up to the new cursor, of at most `max` bytes, cut after its
      first line end. */
  predicate IsRead(log: string, size: nat, pos: nat, max: nat, next: nat, out: string) {
    if max == 0 then next == pos && out == ""
    else
      && |out| <= next <= |log| && out == log[next - |out|..next]
      && StartsAt(log, size, pos, next - |out|)
      && |out| <= max
      && (|out| > 0 ==> '\n' !in out[..|out| - 1])
      && (|out| < max && next < |log| ==> |out| > 0 && out[|out| - 1] == '\n')
  }

  lemma NoRead(log: string, size: nat, pos: nat)
    ensures IsRead(log, size, pos, 0, pos, "")
  {
  }

  /** Cutting what is there, and wanted, after its first line end makes a read. */
  lemma CutIsRead(log: string, size: nat, pos: nat, max: nat, from: nat, count: nat, line: nat)
    requires max > 0 && from <= |log| && StartsAt(log, size, pos, from)
    requires count == if |log| - from < max then |log| - from else max
    requires line <= count
    requires line == 0 ==> '\n' !in log[from..from + count]
    requires line > 0 ==> log[from + line - 1] == '\n' && '\n' !in log[from..from + line - 1]
    ensures var len := if line > 0 then line else count;
            IsRead(log, size, pos, max, from + len, log[from..from + len])
  {
    hide StartsAt;
    var len := if line > 0 then line else count;
    assert len > 0 ==> log[from..from + len][..len - 1] == log[from..from + len - 1];
    assert line == 0 && len > 0 ==> log[from..from + len - 1] == log[from..from + count][..len - 1];
  }

  /** The description of a read leaves it no choice. */
  lemma ReadIsDetermined(log: string, size: nat, pos: nat, max: nat, n1: nat, o1: string, n2: nat, o2: string)
    requires IsRead(log, size, pos, max, n1, o1) && IsRead(log, size, pos, max, n2, o2)
    ensures n1 == n2 && o1 == o2
  {
    if max > 0 {
      var start := n1 - |o1|;
      StartIsDetermined(log, size, pos, start, n2 - |o2|);
      hide StartsAt;
      assert o1 == log[start..n1] && o2 == log[start..n2];
      assert n1 <= n2 && o1 != "" ==> o2[|o1| - 1] == o1[|o1| - 1];
      assert n2 <= n1 && o2 != "" ==> o1[|o2| - 1] == o2[|o2| - 1];
    }
  }

  lemma StartIsDetermined(log: string, size: nat, pos: nat, s1: nat, s2: nat)
    requires StartsAt(log, size, pos, s1) && StartsAt(log, size, pos, s2)
    ensures s1 == s2
  {
  }

  /** A reader: what the log was at each of its reads, and what each read gave. */
  datatype Read = Read(log: string, max: nat, next: nat, out: string)

  /** The reads of one reader of a growing log, starting at a position. */
  predicate ReaderRun(size: nat, from: nat, rs: seq<Read>) {
    rs == [] ||
    var n := |rs| - 1;
    && ReaderRun(size, from, rs[..n])
    && IsRead(rs[n].log, size, Cursor(from, rs[..n]), rs[n].max, rs[n].next, rs[n].out)
    && (n > 0 ==> rs[n - 1].log <= rs[n].log)
  }

  function Cursor(from: nat, rs: seq<Read>): nat {
    if rs == [] then from else rs[|rs| - 1].next
  }

  function Received(rs: seq<Read>): string {
    if rs == [] then "" else Received(rs[..|rs| - 1]) + rs[|rs| - 1].out
  }

  /** At every read, what the reader asked for was still in the ring. */
  predicate NeverOverrun(size: nat, from: nat, rs: seq<Read>) {
    rs == [] ||
    var n := |rs| - 1;
    NeverOverrun(size, from, rs[..n]) && Oldest(|rs[n].log|, size) <= Cursor(from, rs[..n])
  }

  lemma ReadInReach(log: string, size: nat, pos: nat, max: nat, next: nat, out: string)
    requires IsRead(log, size, pos, max, next, out) && Oldest(|log|, size) <= pos <= |log|
    ensures pos <= next <= |log| && out == log[pos..next]
  {
  }

  /** A reader that is never overrun has received the log, in order and whole, up to its cursor. */
  lemma {:induction false} ReaderReceivesTheLog(size: nat, from: nat, rs: seq<Read>)
    requires rs != [] && ReaderRun(size, from, rs) && NeverOverrun(size, from, rs) && from <= |rs[0].log|
    ensures from <= Cursor(from, rs) <= |rs[|rs| - 1].log|
    ensures Received(rs) == rs[|rs| - 1].log[from..Cursor(from, rs)]
  {
    hide IsRead, Oldest;
    var n := |rs| - 1;
    var last, before := rs[n], Cursor(from, rs[..n]);
    if n > 0 {
      ReaderReceivesTheLog(size, from, rs[..n]);
      assert rs[n - 1].log[from..before] == last.log[from..before];
    }
    ReadInReach(last.log, size, before, last.max, last.next, last.out);
    assert last.log[from..before] + last.log[before..last.next] == last.log[from..last.next];
  }

  /** A read of at least one byte from an unfinished log moves the cursor. */
  lemma ReadMakesProgress(log: string, size: nat, pos: nat, max: nat, next: nat, out: string)
    requires IsRead(log, size, pos, max, next, out) && max > 0 && pos < |log|
    ensures next > pos
  {
  }
}

/** The ring itself. */
module LogBuffer {
  import opened LogStream
  import opened Modulo

  const FLUSH_SIZE := 512
  const RESTART := "\n--- SYSTEM RESTART ---\n"

  class LogBuffer {
    const buffer: array<char>
    var totalWritten: nat
    var stdoutPos: nat
    var stdoutDropped: nat
    /** Every byte written since the last cold boot. */
    ghost var log: string
    /** Where the console started, and what it has been sent since. */
    ghost var start: nat
    ghost var out: seq<Output>

    /** The newest bytes of the log, as many as the ring has room for, are each at their slot. */
    ghost predicate HoldsLog()
      reads this`totalWritten, this`log, buffer
    {
      && buffer.Length > 0
      && totalWritten == |log|
      && (forall p :: Oldest(|log|, buffer.Length) <= p < |log| ==> buffer[p % buffer.Length] == log[p])
    }

    /** The ring holds the end of the log, and the console's output is the log up to its cursor. */
    ghost predicate Valid()
      reads this, buffer
    {
      && HoldsLog()
      && Replays(log, start, out, stdoutPos)
      && stdoutDropped == Lost(out)
    }

    /** Start-up with no usable header: an empty log. */
    constructor (size: nat)
      requires size > 0
      ensures Valid() && fresh(buffer) && buffer.Length == size && log == "" && out == []
    {
      buffer := new char[size](_ => 0 as char);
      totalWritten, stdoutPos, stdoutDropped := 0, 0, 0;
      log, start, out := "", 0, [];
    }

    /** A write no longer than the ring appends to the log. */
    method RingWrite(data: string)
      requires Valid() && |data| <= buffer.Length
      modifies this`totalWritten, this`log, buffer
      ensures Valid() && log == old(log) + data
    {
      if |data| == 0 {
        return;
      }
      var n := buffer.Length;
      var offset := totalWritten % n;
      var tillEnd := n - offset;
      if |data| <= tillEnd {
        forall i | 0 <= i < |data| {
          buffer[offset + i] := data[i];
        }
      } else {
        forall i | 0 <= i < tillEnd {
          buffer[offset + i] := data[i];
        }
        forall i | 0 <= i < |data| - tillEnd {
          buffer[i] := data[tillEnd + i];
        }
      }
      ghost var before := log;
      log := log + data;
      totalWritten := totalWritten + |data|;
      forall p | Oldest(|log|, n) <= p < |log|
        ensures buffer[p % n] == log[p]
      {
        if p >= |before| {
          Further(|before|, p - |before|, n);
        } else {
          NotOverwritten(p, |before|, |data|, n);
        }
      }
      ReplaysLonger(before, data, start, out, stdoutPos);
    }

    /** A byte still in reach after a write is at a slot the write did not touch. */
    lemma NotOverwritten(p: nat, total: nat, len: nat, n: nat)
      requires 0 < n && len <= n && p < total && total + len - n <= p
      ensures var offset, slot := total % n, p % n;
              !(offset <= slot < offset + len) && !(offset <= slot + n < offset + len)
    {
      Further(p, total - p, n);
    }

    /** Start-up with a usable header: the log goes on, and the console joins at its end. */
    method SoftReboot()
      requires Valid() && |RESTART| <= buffer.Length
      modifies this, buffer
      ensures Valid() && log == old(log) + RESTART && out == [] && stdoutPos == totalWritten && stdoutDropped == 0
    {
      RingWrite(RESTART);
      stdoutPos, stdoutDropped := totalWritten, 0;
      start, out := stdoutPos, [];
    }

    /** Copy bytes the ring still holds, in one piece or two. */
    method CopyOut(pos: nat, len: nat) returns (bytes: string)
      requires HoldsLog() && Oldest(|log|, buffer.Length) <= pos && pos + len <= |log|
      ensures bytes == log[pos..pos + len]
    {
      var n := buffer.Length;
      var offset := pos % n;
      var tillEnd := n - offset;
      if len <= tillEnd {
        bytes := buffer[offset..offset + len];
      } else {
        bytes := buffer[offset..] + buffer[..len - tillEnd];
      }
      forall i | 0 <= i < len
        ensures bytes[i] == log[pos + i]
      {
        Further(pos, i, n);
        assert buffer[(pos + i) % n] == log[pos + i];
      }
    }

    /** How many bytes there are up to and including the first line end, or zero if there is none. */
    method LineLength(pos: nat, count: nat) returns (length: nat)
      requires HoldsLog() && Oldest(|log|, buffer.Length) <= pos && pos + count <= |log|
      ensures length <= count
      ensures length == 0 ==> '\n' !in log[pos..pos + count]
      ensures length > 0 ==> log[pos + length - 1] == '\n' && '\n' !in log[pos..pos + length - 1]
    {
      var i := 0;
      while i < count
        invariant 0 <= i <= count
        invariant '\n' !in log[pos..pos + i]
      {
        if buffer[(pos + i) % buffer.Length] == '\n' {
          return i + 1;
        }
        i := i + 1;
      }
      length := 0;
    }

    /** Where a read at a position starts, scanning for a line end if its bytes are gone. */
    method Resume(pos: nat) returns (from: nat)
      requires HoldsLog()
      ensures StartsAt(log, buffer.Length, pos, from) && Oldest(|log|, buffer.Length) <= from <= |log|
    {
      var n, total := buffer.Length, totalWritten;
      from := if pos > total then total else pos;
      if total >= n && from < total - n {
        from := total - n;
        var scan := if total - from > RESYNC_LIMIT then RESYNC_LIMIT else total - from;
        var line := LineLength(from, scan);
        from := from + line;
      }
    }

    method ReadAbsolute(pos: nat, max: nat) returns (next: nat, bytes: string)
      requires HoldsLog()
      ensures IsRead(log, buffer.Length, pos, max, next, bytes)
    {
      hide IsRead, StartsAt, HoldsLog;
      if max == 0 {
        NoRead(log, buffer.Length, pos);
        return pos, "";
      }
      var from := Resume(pos);
      TotalIsLength();
      var available := totalWritten - from;
      var toRead := if available < max then available else max;
      var line := LineLength(from, toRead);
      CutIsRead(log, buffer.Length, pos, max, from, toRead, line);
      if line > 0 {
        toRead := line;
      }
      bytes := CopyOut(from, toRead);
      next := from + toRead;
    }

    lemma TotalIsLength()
      requires HoldsLog()
      ensures totalWritten == |log| && buffer.Length > 0
    {
    }

    /** Take note of what was overwritten before it could be printed. */
    method SkipLost()
      requires Valid()
      modifies this`stdoutPos, this`stdoutDropped, this`out
      ensures Valid() && Oldest(|log|, buffer.Length) <= stdoutPos <= |log|
      ensures old(stdoutPos) >= Oldest(|log|, buffer.Length) ==>
                stdoutPos == old(stdoutPos) && stdoutDropped == old(stdoutDropped) && out == old(out)
      ensures old(stdoutPos) < Oldest(|log|, buffer.Length) ==>
                && stdoutPos == Oldest(|log|, buffer.Length)
                && out == old(out) + [Dropped(stdoutPos - old(stdoutPos))]
    {
      hide Replays, Lost, HoldsLog;
      TotalIsLength();
      // The cursor never passes the end of the log, so clamping it there would change nothing.
      ReplaysWithin(log, start, out, stdoutPos);
      var n, total := buffer.Length, totalWritten;
      if total >= n && stdoutPos < total - n {
        var dropped := total - n - stdoutPos;
        ReplaysOneMore(log, start, out, stdoutPos, Dropped(dropped));
        out := out + [Dropped(dropped)];
        stdoutDropped := stdoutDropped + dropped;
        stdoutPos := total - n;
      }
    }

    /** One turn of the console task under the mutex, and what it then prints. */
    method FlushOnce() returns (readBytes: nat)
      requires Valid()
      modifies this`stdoutPos, this`stdoutDropped, this`out
      ensures Valid()
      ensures readBytes <= FLUSH_SIZE && (readBytes == 0 <==> stdoutPos == old(stdoutPos) == totalWritten)
      ensures stdoutPos == totalWritten || (stdoutPos < totalWritten && readBytes == FLUSH_SIZE)
      ensures old(stdoutPos) >= Oldest(|log|, buffer.Length) ==> stdoutDropped == old(stdoutDropped)
      ensures var oldest := Oldest(|log|, buffer.Length);
              var from := if old(stdoutPos) < oldest then oldest else old(stdoutPos);
              && stdoutPos == from + readBytes
              && out == old(out) + (if from > old(stdoutPos) then [Dropped(from - old(stdoutPos))] else [])
                                 + (if readBytes > 0 then [Bytes(log[from..stdoutPos])] else [])
    {
      hide Replays, Lost, HoldsLog;
      TotalIsLength();
      SkipLost();
      var available := totalWritten - stdoutPos;
      readBytes := if available < FLUSH_SIZE then available else FLUSH_SIZE;
      if readBytes > 0 {
        var bytes := CopyOut(stdoutPos, readBytes);
        ReplaysOneMore(log, start, out, stdoutPos, Bytes(bytes));
        out := out + [Bytes(bytes)];
        stdoutPos := stdoutPos + readBytes;
      }
    }

    /** Turns until nothing is left, as when no writer comes in between: the console is then up to date. */
    method Flush()
      requires Valid()
      modifies this`stdoutPos, this`stdoutDropped, this`out
      ensures Valid() && stdoutPos == totalWritten
      ensures Oldest(|log|, buffer.Length) <= old(stdoutPos) ==> stdoutDropped == old(stdoutDropped)
    {
      hide Replays, Lost, HoldsLog;
      TotalIsLength();
      ReplaysWithin(log, start, out, stdoutPos);
      var readBytes := FlushOnce();
      while readBytes != 0
        invariant Valid() && Oldest(|log|, buffer.Length) <= stdoutPos <= totalWritten
        invariant readBytes == 0 ==> stdoutPos == totalWritten
        invariant Oldest(|log|, buffer.Length) <= old(stdoutPos) ==> stdoutDropped == old(stdoutDropped)
        decreases totalWritten - stdoutPos, readBytes
      {
        readBytes := FlushOnce();
      }
    }
  }
}
