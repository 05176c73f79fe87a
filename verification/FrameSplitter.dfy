/** The benchmark's one-shot splitter, an independent second reading of the same framing. */
module FrameSplitter {
  import opened Bytes
  import opened FrameDecoder
  import opened StreamFraming

  datatype FrameBatch = FrameBatch(frames: seq<seq<byte>>, trailingBytes: nat, leadingBytes: nat)

  function TotalLength(frames: seq<seq<byte>>): nat {
    if frames == [] then 0 else TotalLength(frames[..|frames| - 1]) + |frames[|frames| - 1]|
  }

  /** A prefix whose length can be read and cannot be right. */
  predicate BadAt(payload: seq<byte>, i: nat) {
    && i + 6 <= |payload| && payload[i] == 0xA1 && payload[i + 1] == 0x1A
    && var size := payload[i + 4] as int + 256 * (payload[i + 5] as int) + 6;
       size < 8 || size > 1024
  }

  /** Reading has come as far as `position`: to the end of the last frame, or behind a prefix with a bad length. */
  predicate ReadUpTo(payload: seq<byte>, frames: seq<seq<byte>>, position: nat) {
    position == 0
    || (position >= 2 && BadAt(payload, position - 2))
    || (frames != [] && |frames[|frames| - 1]| <= position <= |payload|
        && payload[position - |frames[|frames| - 1]|..position] == frames[|frames| - 1])
  }

  /** What is left holds no prefix, or begins with one whose header or frame is incomplete. */
  predicate NothingMore(left: seq<byte>) {
    (forall i :: 0 <= i < |left| - 1 ==> !(left[i] == 0xA1 && left[i + 1] == 0x1A))
    || (|left| >= 2 && left[0] == 0xA1 && left[1] == 0x1A
        && (|left| < 6
           || (var size := left[4] as int + 256 * (left[5] as int) + 6; 8 <= size <= 1024 && |left| < size)))
  }

  /** A whole prefix stands here. */
  predicate Prefixed(payload: seq<byte>, i: nat) {
    i + 2 <= |payload| && payload[i] == 0xA1 && payload[i + 1] == 0x1A
  }

  /** Behind what has been read up to `from` there is only noise before the trailing bytes. */
  predicate TrailsFrom(payload: seq<byte>, batch: FrameBatch, from: nat) {
    && from + batch.trailingBytes <= |payload|
    && var start: nat := |payload| - batch.trailingBytes;
       && ReadUpTo(payload, batch.frames, from) && NothingMore(payload[start..])
       && (forall i: nat :: from <= i < start ==> !Prefixed(payload, i))
       && (!Prefixed(payload, start) ==> from == start)
  }

  /**
   * The trailing bytes: behind the last frame or bad prefix, all that is left when it holds no prefix, and otherwise
   * what is left from its first prefix on, whose frame is incomplete.
   */
  ghost predicate Trails(payload: seq<byte>, batch: FrameBatch) {
    exists from: nat :: TrailsFrom(payload, batch, from)
  }

  lemma NothingLeft(payload: seq<byte>, frames: seq<seq<byte>>, position: nat, leading: nat)
    requires position <= |payload| && ReadUpTo(payload, frames, position)
    requires forall i: nat :: position <= i ==> !PrefixAt(payload, i)
    ensures Trails(payload, FrameBatch(frames, |payload| - position, leading))
  {
    var left := payload[position..];
    forall i | 0 <= i < |left| - 1 ensures !(left[i] == 0xA1 && left[i + 1] == 0x1A) {
      assert !PrefixAt(payload, position + i);
    }
    assert !PrefixAt(payload, position);
    assert TrailsFrom(payload, FrameBatch(frames, |payload| - position, leading), position);
  }

  lemma IncompleteLeft(payload: seq<byte>, frames: seq<seq<byte>>, position: nat, start: nat, leading: nat)
    requires position <= start <= |payload| && ReadUpTo(payload, frames, position) && PrefixAt(payload, start)
    requires forall i: nat :: position <= i < start ==> !PrefixAt(payload, i)
    requires |payload| - start < 6
             || (8 <= LittleEndian(payload[start + 4..start + 6]) + 6 <= 1024
                 && |payload| - start < LittleEndian(payload[start + 4..start + 6]) + 6)
    ensures Trails(payload, FrameBatch(frames, |payload| - start, leading))
  {
    var left := payload[start..];
    if |left| >= 6 {
      assert left[4..6] == payload[start + 4..start + 6];
    }
    forall i: nat | position <= i < start ensures !Prefixed(payload, i) {
      assert !PrefixAt(payload, i);
    }
    assert TrailsFrom(payload, FrameBatch(frames, |payload| - start, leading), position);
  }

  lemma BadBehind(payload: seq<byte>, frames: seq<seq<byte>>, i: nat)
    requires PrefixAt(payload, i) && i + 6 <= |payload|
    requires LittleEndian(payload[i + 4..i + 6]) + 6 < 8 || LittleEndian(payload[i + 4..i + 6]) + 6 > 1024
    ensures ReadUpTo(payload, frames, i + 2)
  {
  }

  /**
   * Although it skips two bytes at a bad length where the stream decoder skips one, the splitter finds the frames
   * of a scan without resynchronisation, and accounts for every byte of the payload.
   */
  method SplitLuxFrames(payload: seq<byte>) returns (batch: FrameBatch)
    ensures batch.frames == Frames(Scan(payload, Waiting(MAX_PACKET_SIZE)).pieces)
    ensures batch.leadingBytes + TotalLength(batch.frames) + batch.trailingBytes == |payload|
    ensures Trails(payload, batch)
  {
    hide Scan, Frames, TotalLength, LittleEndian, Trails;
    ghost var w := Waiting(MAX_PACKET_SIZE);
    var frames: seq<seq<byte>> := [];
    var leadingBytes: nat := 0;
    var position: nat := 0;
    assert payload[0..] == payload;
    NothingLong();
    while position < |payload|
      invariant position <= |payload| && ReadUpTo(payload, frames, position)
      invariant leadingBytes + TotalLength(frames) == position
      invariant Frames(Scan(payload, w).pieces) == frames + Frames(Scan(payload[position..], w).pieces)
    {
      var frameStart := FindPrefix(payload, position);
      if frameStart < 0 {
        NoFramesWithoutPrefix(payload, position);
        NothingLeft(payload, frames, position, leadingBytes);
        return FrameBatch(frames, |payload| - position, leadingBytes);
      }
      NoiseHoldsNoFrames(payload, position, frameStart);
      leadingBytes := leadingBytes + frameStart - position;
      ghost var front := payload[frameStart..];
      assert PrefixAt(front, 0);
      if |payload| - frameStart < 6 {
        ScanOfShortFront(front, w);
        NoPieces();
        IncompleteLeft(payload, frames, position, frameStart, leadingBytes);
        return FrameBatch(frames, |payload| - frameStart, leadingBytes);
      }
      assert front[4..6] == payload[frameStart + 4..frameStart + 6];
      var totalLength := LittleEndian(payload[frameStart + 4..frameStart + 6]) + 6;
      if totalLength < 8 || totalLength > MAX_PACKET_SIZE {
        BadLengthHoldsNoFrames(payload, frameStart);
        BadBehind(payload, frames, frameStart);
        leadingBytes := leadingBytes + 2;
        position := frameStart + 2;
        continue;
      }
      if |payload| - frameStart < totalLength {
        ScanOfPartial(front, w);
        WaitingFindsNothing(front, MAX_PACKET_SIZE, 2);
        NoPieces();
        IncompleteLeft(payload, frames, position, frameStart, leadingBytes);
        return FrameBatch(frames, |payload| - frameStart, leadingBytes);
      }
      WholeFrameTaken(payload, frameStart, totalLength);
      TotalLengthSnoc(frames, payload[frameStart..frameStart + totalLength]);
      frames := frames + [payload[frameStart..frameStart + totalLength]];
      position := frameStart + totalLength;
    }
    ScanOfShortFront(payload[position..], w);
    NoPieces();
    NothingLeft(payload, frames, position, leadingBytes);
    return FrameBatch(frames, 0, leadingBytes);
  }

  lemma NothingLong()
    ensures TotalLength([]) == 0
  {
  }

  lemma TotalLengthSnoc(frames: seq<seq<byte>>, f: seq<byte>)
    ensures TotalLength(frames + [f]) == TotalLength(frames) + |f|
  {
    assert (frames + [f])[..|frames|] == frames;
  }

  lemma NoPieces()
    ensures Frames([]) == []
  {
  }

  lemma NoiseHoldsNoFrames(payload: seq<byte>, from: nat, to: nat)
    requires from <= to < |payload| && forall i: nat :: from <= i < to ==> !PrefixAt(payload, i)
    ensures Frames(Scan(payload[from..], Waiting(MAX_PACKET_SIZE)).pieces)
         == Frames(Scan(payload[to..], Waiting(MAX_PACKET_SIZE)).pieces)
  {
    hide Scan, SkippedBytes, Flat, FrameBytes;
    var w := Waiting(MAX_PACKET_SIZE);
    var front := payload[from..];
    forall i: nat | i < to - from ensures !PrefixAt(front, i) {
      assert !PrefixAt(payload, from + i);
    }
    NoiseSkipped(front, w, to - from);
    assert front[to - from..] == payload[to..];
    PiecesAppend(Singles(front[..to - from]), Scan(payload[to..], w).pieces);
  }

  lemma NoFramesWithoutPrefix(payload: seq<byte>, from: nat)
    requires from < |payload| && forall i: nat :: from <= i ==> !PrefixAt(payload, i)
    ensures Frames(Scan(payload[from..], Waiting(MAX_PACKET_SIZE)).pieces) == []
  {
    hide Scan, SkippedBytes, Flat, FrameBytes;
    var w := Waiting(MAX_PACKET_SIZE);
    var last := |payload| - 1;
    NoiseHoldsNoFrames(payload, from, last);
    var front := payload[last..];
    if front[0] == PREFIX[0] {
      ScanOfShortFront(front, w);
    } else {
      ScanOfNoise(front, w);
      ScanOfShortFront(front[1..], w);
      PiecesAppend([Skipped(front[..1])], []);
    }
  }

  /** The second byte of a prefix is not the first byte of another: skipping one or both is the same. */
  lemma BadLengthHoldsNoFrames(payload: seq<byte>, at: nat)
    requires at + 6 <= |payload| && PrefixAt(payload, at)
    requires !(MIN_FRAME_SIZE <= DeclaredSize(payload[at..]) <= MAX_PACKET_SIZE)
    ensures Frames(Scan(payload[at..], Waiting(MAX_PACKET_SIZE)).pieces)
         == Frames(Scan(payload[at + 2..], Waiting(MAX_PACKET_SIZE)).pieces)
  {
    hide Scan, SkippedBytes, Flat, FrameBytes;
    var w := Waiting(MAX_PACKET_SIZE);
    var front := payload[at..];
    ScanOfBadLength(front, w);
    assert front[1..] == payload[at + 1..];
    PiecesAppend([Skipped(front[..1])], Scan(payload[at + 1..], w).pieces);
    assert !PrefixAt(payload, at + 1);
    NoiseHoldsNoFrames(payload, at + 1, at + 2);
  }

  lemma WholeFrameTaken(payload: seq<byte>, at: nat, size: nat)
    requires at + 6 <= |payload| && PrefixAt(payload, at) && size == DeclaredSize(payload[at..])
    requires MIN_FRAME_SIZE <= size <= MAX_PACKET_SIZE && at + size <= |payload|
    ensures Frames(Scan(payload[at..], Waiting(MAX_PACKET_SIZE)).pieces)
         == [payload[at..at + size]] + Frames(Scan(payload[at + size..], Waiting(MAX_PACKET_SIZE)).pieces)
  {
    hide Scan, SkippedBytes, Flat, FrameBytes;
    var w := Waiting(MAX_PACKET_SIZE);
    var front := payload[at..];
    ScanOfWhole(front, w);
    assert front[..size] == payload[at..at + size] && front[size..] == payload[at + size..];
    PiecesAppend([Frame(front[..size])], Scan(payload[at + size..], w).pieces);
  }

  /**
   * One payload read twice: a fresh stream decoder hands over every frame of the splitter, in the same order and
   * first; the two agree exactly when the resync search finds nothing.
   */
  lemma SplitterAgainstDecoder(payload: seq<byte>, split: seq<seq<byte>>, streamed: seq<seq<byte>>)
    requires split == Frames(Scan(payload, Waiting(MAX_PACKET_SIZE)).pieces)
    requires streamed == Frames(Scan(payload, Resyncing(MAX_PACKET_SIZE)).pieces)
    ensures Prefix(split, streamed)
    ensures split == streamed <==> Quiet(payload, Resyncing(MAX_PACKET_SIZE))
  {
    ResyncOnlyAdds(payload, Resyncing(MAX_PACKET_SIZE));
  }

  /** Both readers run on the same payload. */
  method ReadBothWays(payload: seq<byte>) returns (split: FrameBatch, streamed: seq<seq<byte>>)
    ensures Prefix(split.frames, streamed)
    ensures split.frames == streamed <==> Quiet(payload, Resyncing(MAX_PACKET_SIZE))
  {
    split := SplitLuxFrames(payload);
    var decoder := new LuxFrameDecoder(MAX_PACKET_SIZE);
    streamed := decoder.Feed(payload);
    assert [] + payload == payload;
    SplitterAgainstDecoder(payload, split.frames, streamed);
  }
}
