/** A seekable stream over a blob, read through a buffered window.

The reference is a plain cursor over the whole blob. The source is described, call by call, by
the outcome of every read it may be asked for and by whether its size is available.
 */
module SeekingStream {

  import opened Basics

  // -------------------------------------------------------------------- the plain cursor

  datatype Direction = Beg | Cur | End

  datatype Command = Peek | Bump | Read(count: nat) | Seek(offset: int, dir: Direction)

  /** A byte or the end of the file, a block of bytes, or a position. */
  datatype Reply = NextByte(byte: Option<Byte>) | Block(bytes: Bytes) | Position(position: int)

  predicate SeekFails(offset: int, dir: Direction) {
    (dir == Beg && offset < 0) || (dir == End && offset > 0)
  }

  function SeekTarget(size: nat, cursor: int, offset: int, dir: Direction): int {
    var base := match dir case Beg => 0 case Cur => cursor case End => size;
    Min(size, Max(0, base + offset))
  }

  function PlainReply(blob: Bytes, cursor: nat, c: Command): Reply
    requires cursor <= |blob|
  {
    match c
    case Peek => NextByte(if cursor < |blob| then Some(blob[cursor]) else None)
    case Bump => NextByte(if cursor < |blob| then Some(blob[cursor]) else None)
    case Read(n) => Block(blob[cursor..Min(cursor + n, |blob|)])
    case Seek(offset, dir) => Position(if SeekFails(offset, dir) then -1 else SeekTarget(|blob|, cursor, offset, dir))
  }

  function PlainNext(blob: Bytes, cursor: nat, c: Command): (next: nat)
    requires cursor <= |blob|
    ensures next <= |blob|
  {
    match c
    case Peek => cursor
    case Bump => Min(cursor + 1, |blob|)
    case Read(n) => Min(cursor + n, |blob|)
    case Seek(offset, dir) => if SeekFails(offset, dir) then cursor else SeekTarget(|blob|, cursor, offset, dir)
  }

  function PlainCursor(blob: Bytes, commands: seq<Command>): (cursor: nat)
    ensures cursor <= |blob|
  {
    if commands == [] then 0
    else PlainNext(blob, PlainCursor(blob, commands[..|commands| - 1]), commands[|commands| - 1])
  }

  function PlainReplies(blob: Bytes, commands: seq<Command>): seq<Reply> {
    if commands == [] then []
    else
      var before := commands[..|commands| - 1];
      PlainReplies(blob, before) + [PlainReply(blob, PlainCursor(blob, before), commands[|commands| - 1])]
  }

  // ------------------------------------------------------------------------- the read loop

  /** An error, or the number of bytes read; a negative number ends the loop. */
  datatype Outcome = Failed | Count(n: int)

  /** The outcome of reading a chunk of a size at an offset. */
  type Source = (int, int) -> Outcome

  /** The source never returns more than asked for. */
  ghost predicate Conforming(size: nat, source: Source) {
    forall o, n :: 0 <= o && 0 < n <= size - o && source(o, n).Count? ==> source(o, n).n <= n
  }

  /** The source returns all that it is asked for. */
  ghost predicate Filling(size: nat, source: Source) {
    forall o, n :: 0 <= o && 0 < n <= size - o ==> source(o, n) == Count(n)
  }

  function Resized(buffer: Bytes, n: nat): (r: Bytes)
    ensures |r| == n
  {
    seq(n, i => if 0 <= i < |buffer| then buffer[i] else 0)
  }

  /** The loop stops by itself, at a failed read, or never: a read of no bytes is repeated. */
  datatype Ending = Stops | Fails | Repeats

  /** How the loop ends: the bytes counted, the way, and the buffer. */
  datatype Reads = Reads(done: nat, ending: Ending, buffer: Bytes)

  /** The read loop with `done` of `total` bytes read: every chunk is put at the beginning of the
      buffer. */
  function ReadLoop(blob: Bytes, source: Source, offset: nat, total: nat, done: nat, buffer: Bytes): (r: Reads)
    requires Conforming(|blob|, source)
    requires done <= total && offset + total <= |blob| && |buffer| == total
    ensures done <= r.done <= total && |r.buffer| == total
    decreases total - done
  {
    if done == total then Reads(done, Stops, buffer)
    else
      match source(offset + done, total - done)
      case Failed => Reads(done, Fails, buffer)
      case Count(n) =>
        if n < 0 then Reads(done, Stops, buffer)
        else if n == 0 then Reads(done, Repeats, buffer)
        else ReadLoop(blob, source, offset, total, done + n, blob[offset + done..][..n] + buffer[n..])
  }

  /** The loop got all bytes, each in its place. */
  predicate Assembled(blob: Bytes, offset: nat, total: nat, r: Reads)
    requires offset + total <= |blob|
  {
    r.ending == Stops && r.done == total && r.buffer == blob[offset..offset + total]
  }

  /** After the first chunk the byte at the front comes from a later offset. */
  lemma {:induction false} LaterChunksOverwrite(blob: Bytes, source: Source, offset: nat, total: nat, done: nat,
          buffer: Bytes)
    requires Conforming(|blob|, source)
    requires 0 < done < total && offset + total <= |blob| && |buffer| == total
    ensures var r := ReadLoop(blob, source, offset, total, done, buffer);
            r.ending == Stops && r.done == total ==> exists j :: offset < j < offset + total && r.buffer[0] == blob[j]
    decreases total - done
  {
    var outcome := source(offset + done, total - done);
    if outcome.Count? && outcome.n > 0 {
      var next := blob[offset + done..][..outcome.n] + buffer[outcome.n..];
      if done + outcome.n < total {
        LaterChunksOverwrite(blob, source, offset, total, done + outcome.n, next);
      } else {
        assert ReadLoop(blob, source, offset, total, done + outcome.n, next).buffer == next;
        assert next[0] == blob[offset + done];
      }
    }
  }

  lemma {:induction false} FullReadAssembles(blob: Bytes, source: Source, offset: nat, total: nat, buffer: Bytes)
    requires Conforming(|blob|, source) && 0 < total && offset + total <= |blob| && |buffer| == total
    requires source(offset, total) == Count(total)
    ensures Assembled(blob, offset, total, ReadLoop(blob, source, offset, total, 0, buffer))
  {
    assert blob[offset..][..total] + buffer[total..] == blob[offset..offset + total];
  }

  /** The blob that differs from all others at one offset only. */
  function Marked(size: nat, offset: nat): Bytes {
    seq(size, i => if i == offset then 1 else 0)
  }

  ghost predicate AssemblesAll(size: nat, source: Source, offset: nat, total: nat, buffer: Bytes)
    requires Conforming(size, source) && offset + total <= size && |buffer| == total
  {
    forall blob: Bytes | |blob| == size ::
      Assembled(blob, offset, total, ReadLoop(blob, source, offset, total, 0, buffer))
  }

  /** The read loop assembles the bytes of every blob if and only if its first read returns
      everything: the second and later chunks of a request overwrite the first. */
  lemma {:induction false} AssemblesIffFirstReadFills(size: nat, source: Source, offset: nat, total: nat, buffer: Bytes)
    requires Conforming(size, source) && 0 < total && offset + total <= size && |buffer| == total
    ensures AssemblesAll(size, source, offset, total, buffer) <==> source(offset, total) == Count(total)
  {
    if source(offset, total) == Count(total) {
      forall blob: Bytes | |blob| == size
        ensures Assembled(blob, offset, total, ReadLoop(blob, source, offset, total, 0, buffer))
      {
        FullReadAssembles(blob, source, offset, total, buffer);
      }
    } else {
      var blob, outcome := Marked(size, offset), source(offset, total);
      if outcome.Count? && outcome.n > 0 {
        LaterChunksOverwrite(blob, source, offset, total, outcome.n, blob[offset..][..outcome.n] + buffer[outcome.n..]);
      }
      assert !Assembled(blob, offset, total, ReadLoop(blob, source, offset, total, 0, buffer));
    }
  }

  /** The preconditions are the bounds that the source is promised. */
  method ReadChunk(blob: Bytes, source: Source, offset: int, chunkSize: int) returns (outcome: Outcome, bytes: Bytes)
    requires Conforming(|blob|, source) && chunkSize > 0
    requires 0 <= offset < |blob| && 0 <= offset + chunkSize <= |blob|
    ensures outcome == source(offset, chunkSize)
    ensures |bytes| == if outcome.Count? && outcome.n > 0 then outcome.n else 0
    ensures forall i :: 0 <= i < |bytes| ==> bytes[i] == blob[offset + i]
  {
    outcome := source(offset, chunkSize);
    bytes := if outcome.Count? && outcome.n > 0 then blob[offset..][..outcome.n] else [];
  }

  method ReadWindow(blob: Bytes, source: Source, srcLimitPosition: nat, totalBytesToRead: nat, resized: Bytes)
    returns (r: Reads)
    requires Conforming(|blob|, source)
    requires srcLimitPosition + totalBytesToRead <= |blob| && |resized| == totalBytesToRead
    requires !ReadLoop(blob, source, srcLimitPosition, totalBytesToRead, 0, resized).ending.Repeats?
    ensures r == ReadLoop(blob, source, srcLimitPosition, totalBytesToRead, 0, resized)
  {
    var buffer := resized;
    var totalBytesRead := 0;
    while totalBytesRead < totalBytesToRead
      invariant 0 <= totalBytesRead <= totalBytesToRead == |buffer|
      invariant ReadLoop(blob, source, srcLimitPosition, totalBytesToRead, totalBytesRead, buffer)
             == ReadLoop(blob, source, srcLimitPosition, totalBytesToRead, 0, resized)
    {
      var offset, chunkSize := srcLimitPosition + totalBytesRead, totalBytesToRead - totalBytesRead;
      var outcome, bytes := ReadChunk(blob, source, offset, chunkSize);
      if outcome.Failed? {
        return Reads(totalBytesRead, Fails, buffer);
      }
      if outcome.n < 0 {
        break;
      }
      assert bytes == blob[offset..][..outcome.n];
      buffer := bytes + buffer[|bytes|..];
      totalBytesRead := totalBytesRead + |bytes|;
    }
    return Reads(totalBytesRead, Stops, buffer);
  }

  /** A stretch of the window continues what was read before it. */
  lemma {:induction false} ContinueRead(blob: Bytes, start: nat, lo: nat, hi: nat, i: nat, n: nat)
    requires lo <= hi <= |blob| && i + n <= hi - lo && start <= lo + i
    ensures blob[start..lo + i] + blob[lo..hi][i..i + n] == blob[start..lo + i + n]
  {
    var window := blob[lo..hi];
    assert forall k :: 0 <= k < |window| ==> window[k] == blob[lo + k];
  }

  lemma {:induction false} JoinSlices(blob: Bytes, lo: nat, mid: nat, hi: nat)
    requires lo <= mid <= hi <= |blob|
    ensures blob[lo..mid] + blob[mid..hi] == blob[lo..hi]
  {
  }

  // -------------------------------------------------------------------------- the stream

  class SeekingInputStreambuf {
    const blob: Bytes
    const bufferSize: int

    var buffer: Bytes
    /** The get area begins with the buffer; these are offsets of its next byte and of its end. */
    var gptr: nat
    var egptr: nat
    var srcLimitPosition: int
    var srcCachedSize: int

    /** All positions are in bounds. */
    ghost predicate Placed()
      reads this
    {
      && gptr <= egptr <= srcLimitPosition <= |blob|
      && (srcCachedSize == -1 || srcCachedSize == |blob|)
    }

    /** The get area is the whole buffer, and the buffer is a window of the blob. */
    ghost predicate Valid()
      reads this
    {
      Placed() && egptr == |buffer| && buffer == blob[srcLimitPosition - |buffer|..srcLimitPosition]
    }

    constructor (blob: Bytes, bufferSize: int)
      ensures this.blob == blob && this.bufferSize == bufferSize
      ensures Valid() && BufferCursorPosition() == 0 && buffer == [] && srcCachedSize == -1
      ensures gptr == egptr == srcLimitPosition == 0
    {
      this.blob, this.bufferSize := blob, bufferSize;
      buffer, gptr, egptr, srcLimitPosition, srcCachedSize := [], 0, 0, 0, -1;
    }

    function BufferStartPosition(): int
      reads this
    {
      srcLimitPosition - egptr
    }

    function BufferCursorPosition(): int
      reads this
    {
      srcLimitPosition - (egptr - gptr)
    }

    /** The size is asked for once it is needed and kept from the first answer on. */
    method Size(available: bool) returns (size: Result<int>)
      requires srcCachedSize == -1 || srcCachedSize == |blob|
      modifies `srcCachedSize
      ensures srcCachedSize == -1 || srcCachedSize == |blob|
      ensures size.Ok? <==> available || old(srcCachedSize) >= 0
      ensures size.Ok? ==> size.value == |blob| == srcCachedSize
      ensures size.Error? ==> srcCachedSize == old(srcCachedSize)
    {
      if srcCachedSize >= 0 {
        return Ok(srcCachedSize);
      }
      if !available {
        return Error(INTERNAL);
      }
      srcCachedSize := |blob|;
      return Ok(|blob|);
    }

    /** The length of the next window. */
    function NextTotal(): (n: nat)
      requires 0 <= srcLimitPosition < |blob|
      reads this
      ensures 0 < n <= |blob| - srcLimitPosition
    {
      Max(Min(|blob| - srcLimitPosition, bufferSize), 1)
    }

    /** The read loop of the next window comes to an end. */
    predicate LoopEnds(source: Source)
      requires Conforming(|blob|, source) && 0 <= srcLimitPosition < |blob|
      reads this
    {
      !ReadLoop(blob, source, srcLimitPosition, NextTotal(), 0, Resized(buffer, NextTotal())).ending.Repeats?
    }

    /** Fills the next window. A read that fails, or ends the loop before the first byte, leaves
        the get area behind with a resized buffer, and skips the bytes counted before. A first
        read that returns everything makes the stream valid whatever happened before. */
    method Refill(totalBytesToRead: nat, source: Source) returns (c: Option<Byte>)
      requires Placed() && gptr == egptr && srcLimitPosition < |blob| && Conforming(|blob|, source)
      requires totalBytesToRead == NextTotal() && LoopEnds(source)
      modifies `buffer, `gptr, `egptr, `srcLimitPosition
      ensures Placed()
      ensures var r := ReadLoop(blob, source, old(srcLimitPosition), totalBytesToRead, 0,
                                Resized(old(buffer), totalBytesToRead));
              && srcLimitPosition == old(srcLimitPosition) + r.done
              && (c.Some? <==> r.ending == Stops && r.done > 0)
              && (c.Some? ==> buffer == r.buffer[..r.done] && egptr == |buffer| && gptr == 0 && c.value == buffer[0])
              && (c.None? ==> gptr == egptr == old(egptr) && buffer == r.buffer)
      ensures c.Some? ==> BufferCursorPosition() == old(BufferCursorPosition())
      ensures source(old(srcLimitPosition), totalBytesToRead) == Count(totalBytesToRead) ==>
                c.Some? && Valid() && |buffer| == totalBytesToRead
      ensures source(old(srcLimitPosition), totalBytesToRead).Failed? ==>
                c.None? && |buffer| == totalBytesToRead && srcLimitPosition == old(srcLimitPosition)
    {
      var resized := Resized(buffer, totalBytesToRead);
      if source(srcLimitPosition, totalBytesToRead) == Count(totalBytesToRead) {
        FullReadAssembles(blob, source, srcLimitPosition, totalBytesToRead, resized);
      }
      var r := ReadWindow(blob, source, srcLimitPosition, totalBytesToRead, resized);
      srcLimitPosition := srcLimitPosition + r.done;
      if r.ending == Fails || r.done == 0 {
        buffer := r.buffer;
        return None;
      }
      buffer := r.buffer[..r.done];
      gptr, egptr := 0, |buffer|;
      return Some(buffer[0]);
    }

    predicate Exhausted(available: bool)
      reads this
    {
      srcLimitPosition >= |blob| || (!available && srcCachedSize < 0)
    }

    /** Moves the window on when the get area is used up; nothing happens at the end of the blob or
        while its size is unavailable. */
    method Underflow(available: bool, source: Source) returns (c: Option<Byte>)
      requires Placed() && gptr == egptr && Conforming(|blob|, source)
      requires !Exhausted(available) ==> LoopEnds(source)
      modifies this
      ensures Placed()
      ensures available ==> srcCachedSize == |blob|
      ensures old(Exhausted(available)) ==>
                && c.None? && buffer == old(buffer) && gptr == old(gptr) && egptr == old(egptr)
                && srcLimitPosition == old(srcLimitPosition)
      ensures !old(Exhausted(available)) ==>
                var total := old(NextTotal());
                var r := ReadLoop(blob, source, old(srcLimitPosition), total, 0, Resized(old(buffer), total));
                && srcLimitPosition == old(srcLimitPosition) + r.done
                && (c.Some? <==> r.ending == Stops && r.done > 0)
                && (c.Some? ==> buffer == r.buffer[..r.done] && egptr == |buffer| && gptr == 0 && c.value == buffer[0])
                && (c.None? ==> gptr == egptr == old(egptr) && buffer == r.buffer)
                && (source(old(srcLimitPosition), total) == Count(total) ==> c.Some? && Valid() && |buffer| == total)
                && (source(old(srcLimitPosition), total).Failed? ==>
                      c.None? && |buffer| == total && srcLimitPosition == old(srcLimitPosition))
      ensures c.Some? ==> BufferCursorPosition() == old(BufferCursorPosition())
    {
      var size := Size(available);
      if size.Error? || srcLimitPosition >= size.value {
        return None;
      }
      var totalBytesToRead := Max(Min(size.value - srcLimitPosition, bufferSize), 1);
      c := Refill(totalBytesToRead, source);
    }

    /** With a source that fills each request, the next window is there whatever happened before. */
    method FillNext(source: Source) returns (c: Option<Byte>)
      requires Placed() && gptr == egptr && Filling(|blob|, source)
      modifies this
      ensures BufferCursorPosition() == old(BufferCursorPosition()) && srcCachedSize == |blob|
      ensures c.Some? <==> old(srcLimitPosition) < |blob|
      ensures c.None? ==> Placed() && unchanged(`buffer, `gptr, `egptr, `srcLimitPosition)
      ensures c.Some? ==> Valid() && gptr == 0 && |buffer| == old(NextTotal()) && c.value == buffer[0]
    {
      c := Underflow(true, source);
    }

    /** A read that fails at once leaves everything but the buffer. */
    method FailNext(source: Source) returns (c: Option<Byte>)
      requires Placed() && gptr == egptr && srcLimitPosition < |blob| && Conforming(|blob|, source)
      requires source(srcLimitPosition, NextTotal()).Failed?
      modifies this
      ensures Placed() && c.None? && unchanged(`gptr, `egptr, `srcLimitPosition) && srcCachedSize == |blob|
      ensures |buffer| == old(NextTotal())
    {
      c := Underflow(true, source);
    }

    predicate InWindow(position: int)
      reads this
    {
      BufferStartPosition() <= position < srcLimitPosition
    }

    /** Stays in the window or drops it. The get area then is the whole buffer, so the cursor
        lands on the position if and only if the position is outside of the window or the
        buffer still has the length of the get area. */
    method Reposition(newPosition: nat)
      requires Placed() && newPosition <= |blob|
      modifies `buffer, `gptr, `egptr, `srcLimitPosition
      ensures buffer == (if old(InWindow(newPosition)) then old(buffer) else []) && egptr == |buffer|
      ensures BufferCursorPosition() == newPosition <==> !old(InWindow(newPosition)) || old(egptr) == |old(buffer)|
      ensures BufferCursorPosition() == newPosition ==> Placed()
      ensures old(Valid()) || !old(InWindow(newPosition)) ==> Valid()
    {
      if newPosition < BufferStartPosition() || newPosition >= srcLimitPosition {
        buffer, gptr, egptr := [], 0, 0;
        srcLimitPosition := newPosition;
      } else {
        gptr := newPosition - BufferStartPosition();
        egptr := |buffer|;
      }
    }

    method Seekoff(offset: int, dir: Direction, available: bool) returns (position: int)
      requires Placed()
      modifies this
      ensures position == -1 <==> SeekFails(offset, dir) || (!available && old(srcCachedSize) < 0)
      ensures position == -1 ==> Placed() && BufferCursorPosition() == old(BufferCursorPosition())
      ensures position == -1 <==> || (dir == Beg && offset < 0) || (dir == End && offset > 0)
                                  || (!available && old(srcCachedSize) < 0)
      ensures position != -1 && dir == Beg ==> position == Min(|blob|, offset)
      ensures position != -1 && dir == Cur ==>
                position == Min(|blob|, Max(0, old(BufferCursorPosition()) + offset))
      ensures position != -1 && dir == End ==> position == Max(0, |blob| + offset)
      ensures position != -1 ==>
                && position == SeekTarget(|blob|, old(BufferCursorPosition()), offset, dir)
                && (BufferCursorPosition() == position <==> !old(InWindow(position)) || old(egptr) == |old(buffer)|)
      ensures old(Valid()) ==> Valid()
    {
      var size := Size(available);
      if size.Error? {
        return -1;
      }
      var newPosition;
      match dir {
        case Beg =>
          if offset < 0 {
            return -1;
          }
          newPosition := offset;
        case Cur =>
          newPosition := BufferCursorPosition() + offset;
        case End =>
          if offset > 0 {
            return -1;
          }
          newPosition := size.value + offset;
      }
      newPosition := Min(size.value, Max(0, newPosition));
      Reposition(newPosition);
      return newPosition;
    }

    /** How a stream is asked where it is: a seek by nothing returns the cursor and leaves it. */
    method Tell() returns (position: int)
      requires Valid()
      modifies this
      ensures Valid() && position == BufferCursorPosition() == old(BufferCursorPosition())
    {
      position := Seekoff(0, Cur, true);
    }

    method PeekByte(source: Source) returns (c: Option<Byte>)
      requires Valid() && Filling(|blob|, source)
      modifies this
      ensures Valid() && BufferCursorPosition() == old(BufferCursorPosition())
      ensures c.Some? <==> BufferCursorPosition() < |blob|
      ensures c.Some? ==> c.value == blob[BufferCursorPosition()] && gptr < |buffer|
    {
      if gptr < egptr {
        return Some(buffer[gptr]);
      }
      c := FillNext(source);
    }

    method BumpByte(source: Source) returns (c: Option<Byte>)
      requires Valid() && Filling(|blob|, source)
      modifies this
      ensures Valid()
      ensures c.Some? <==> old(BufferCursorPosition()) < |blob|
      ensures c.Some? ==> c.value == blob[old(BufferCursorPosition())]
      ensures BufferCursorPosition() == old(BufferCursorPosition()) + if c.Some? then 1 else 0
    {
      c := PeekByte(source);
      if c.Some? {
        gptr := gptr + 1;
      }
    }

    /** Takes up to `count` bytes from the get area. */
    method TakeAvailable(count: nat) returns (bytes: Bytes)
      requires Valid()
      modifies `gptr
      ensures Valid() && |bytes| == Min(egptr - old(gptr), count)
      ensures BufferCursorPosition() == old(BufferCursorPosition()) + |bytes|
      ensures bytes == blob[old(BufferCursorPosition())..BufferCursorPosition()]
    {
      var n := Min(egptr - gptr, count);
      ContinueRead(blob, BufferCursorPosition(), BufferStartPosition(), srcLimitPosition, gptr, n);
      bytes := buffer[gptr..gptr + n];
      gptr := gptr + n;
    }

    /** Copies whole stretches of the get area and refills it in between. */
    method ReadBytes(count: nat, source: Source) returns (bytes: Bytes)
      requires Valid() && Filling(|blob|, source)
      modifies this
      ensures Valid() && BufferCursorPosition() == Min(old(BufferCursorPosition()) + count, |blob|)
      ensures bytes == blob[old(BufferCursorPosition())..Min(old(BufferCursorPosition()) + count, |blob|)]
    {
      bytes := [];
      ghost var start := BufferCursorPosition();
      while |bytes| < count
        invariant Valid() && |bytes| <= count
        invariant BufferCursorPosition() == start + |bytes|
        invariant bytes == blob[start..start + |bytes|]
      {
        ghost var cursor := BufferCursorPosition();
        var taken := TakeAvailable(count - |bytes|);
        JoinSlices(blob, start, cursor, BufferCursorPosition());
        bytes := bytes + taken;
        if |bytes| < count {
          cursor := BufferCursorPosition();
          var c := BumpByte(source);
          if c.None? {
            return;
          }
          assert [c.value] == blob[cursor..cursor + 1];
          JoinSlices(blob, start, cursor, cursor + 1);
          bytes := bytes + [c.value];
        }
      }
    }

    /** One command, answered as the plain cursor answers it. */
    method Execute(command: Command, source: Source) returns (reply: Reply)
      requires Valid() && Filling(|blob|, source)
      modifies this
      ensures Valid()
      ensures reply == PlainReply(blob, old(BufferCursorPosition()), command)
      ensures BufferCursorPosition() == PlainNext(blob, old(BufferCursorPosition()), command)
    {
      match command
      case Peek =>
        var c := PeekByte(source);
        return NextByte(c);
      case Bump =>
        var c := BumpByte(source);
        return NextByte(c);
      case Read(n) =>
        var bytes := ReadBytes(n, source);
        return Block(bytes);
      case Seek(offset, dir) =>
        var position := Seekoff(offset, dir, true);
        return Position(position);
    }
  }

  lemma {:induction false} PlainSnoc(blob: Bytes, commands: seq<Command>, i: nat)
    requires i < |commands|
    ensures PlainCursor(blob, commands[..i + 1]) == PlainNext(blob, PlainCursor(blob, commands[..i]), commands[i])
    ensures PlainReplies(blob, commands[..i + 1])
         == PlainReplies(blob, commands[..i]) + [PlainReply(blob, PlainCursor(blob, commands[..i]), commands[i])]
  {
    assert commands[..i + 1][..i] == commands[..i];
  }

  /** For every blob, buffer size and script of reads and seeks, a stream over a source that
      fills each request answers as a plain cursor over the whole blob. */
  method RunScript(blob: Bytes, source: Source, bufferSize: int, commands: seq<Command>)
    returns (replies: seq<Reply>)
    requires Filling(|blob|, source)
    ensures replies == PlainReplies(blob, commands)
  {
    var stream := new SeekingInputStreambuf(blob, bufferSize);
    replies := [];
    for i := 0 to |commands|
      invariant stream.Valid() && stream.blob == blob
      invariant stream.BufferCursorPosition() == PlainCursor(blob, commands[..i])
      invariant replies == PlainReplies(blob, commands[..i])
    {
      PlainSnoc(blob, commands, i);
      var reply := stream.Execute(commands[i], source);
      replies := replies + [reply];
    }
    assert commands[..|commands|] == commands;
  }

  /** A source that always returns what it is asked for. */
  function FullSource(): (source: Source)
    ensures forall size: nat :: Filling(size, source)
  {
    (o, n) => Count(n)
  }

  /** A stream that holds its first window and has read none of it. */
  method FillFirstWindow(blob: Bytes, bufferSize: nat) returns (stream: SeekingInputStreambuf)
    requires 0 < bufferSize < |blob|
    ensures fresh(stream) && stream.blob == blob && stream.bufferSize == bufferSize && stream.Valid()
    ensures stream.gptr == 0 && stream.egptr == stream.srcLimitPosition == bufferSize
  {
    stream := new SeekingInputStreambuf(blob, bufferSize);
    var _ := stream.FillNext(FullSource());
  }

  /** A stream that has read its first window. */
  method ReadFirstWindow(blob: Bytes, bufferSize: nat) returns (stream: SeekingInputStreambuf)
    requires 0 < bufferSize < |blob|
    ensures fresh(stream) && stream.blob == blob && stream.bufferSize == bufferSize && stream.Valid()
    ensures stream.gptr == stream.egptr == stream.srcLimitPosition == bufferSize
  {
    stream := FillFirstWindow(blob, bufferSize);
    var _ := stream.TakeAvailable(bufferSize);
  }

  /** A failed read at the end of a window, and a seek back into it: for every blob longer than
      the buffer, but not twice as long, the stream then is not where it says. */
  method SeekAfterFailedRead(blob: Bytes, bufferSize: nat) returns (position: int, cursor: int)
    requires bufferSize < |blob| < 2 * bufferSize
    ensures position == 0 && cursor != position
  {
    var stream := ReadFirstWindow(blob, bufferSize);
    var source: Source := (o, n) => Failed;
    var _ := stream.FailNext(source);
    position := stream.Seekoff(0, Beg, true);
    cursor := stream.BufferCursorPosition();
  }
}
