/** The streaming decoder that cuts a TCP byte stream into length-prefixed LuxPower frames. */
module FrameDecoder {
  import opened Options
  import opened Bytes
  import opened Response

  const MIN_FRAME_SIZE := 8
  const MAX_PACKET_SIZE := 1024

  // ---------- specification: what happens at the front of the buffer ----------

  datatype Head =
    | Wait              // too short to tell
    | Noise             // the first byte starts no frame
    | BadLength         // a frame start with an impossible length
    | Partial           // a plausible frame that is not complete yet
    | Whole(size: nat)  // a complete frame

  /** How large a frame may be, and which complete frames are worth resynchronising on. */
  datatype Rules = Rules(max: nat, accept: seq<byte> -> bool)

  /** The rules of the source: resynchronise on what the parser accepts as translated data. */
  function Resyncing(max: nat): Rules {
    Rules(max, AcceptedTranslated)
  }

  predicate Nothing(frame: seq<byte>) {
    false
  }

  /** The reference without resynchronisation: an incomplete frame is always waited for. */
  function Waiting(max: nat): Rules {
    Rules(max, Nothing)
  }

  predicate PrefixAt(buffer: seq<byte>, i: nat) {
    i + 1 < |buffer| && buffer[i] == PREFIX[0] && buffer[i + 1] == PREFIX[1]
  }

  function DeclaredSize(buffer: seq<byte>): nat
    requires |buffer| >= 6
  {
    LittleEndian(buffer[4..6]) + 6
  }

  function HeadOf(buffer: seq<byte>, max: nat): (h: Head)
    ensures h.Whole? ==> MIN_FRAME_SIZE <= h.size <= max && h.size <= |buffer|
    ensures h.Noise? || h.BadLength? ==> |buffer| >= 1
  {
    if |buffer| == 0 then Wait
    else if |buffer| == 1 then if buffer[0] == PREFIX[0] then Wait else Noise
    else if !PrefixAt(buffer, 0) then Noise
    else if |buffer| < 6 then Wait
    else if !(MIN_FRAME_SIZE <= DeclaredSize(buffer) <= max) then BadLength
    else if |buffer| < DeclaredSize(buffer) then Partial
    else Whole(DeclaredSize(buffer))
  }

  /** The stream is consumed piece by piece: bytes given up, and frames handed over. */
  datatype Piece = Skipped(bytes: seq<byte>) | Frame(bytes: seq<byte>)

  datatype Outcome = Outcome(pieces: seq<Piece>, malformed: nat, rest: seq<byte>)

  function After(pieces: seq<Piece>, malformed: nat, o: Outcome): Outcome {
    Outcome(pieces + o.pieces, malformed + o.malformed, o.rest)
  }

  /** A complete frame that the rules accept starts at offset `c`. */
  predicate ValidAt(buffer: seq<byte>, rules: Rules, c: nat) {
    && c + MIN_FRAME_SIZE <= |buffer| && PrefixAt(buffer, c)
    && var size := LittleEndian(buffer[c + 4..c + 6]) + 6;
       MIN_FRAME_SIZE <= size <= rules.max && c + size <= |buffer| && rules.accept(buffer[c..c + size])
  }

  function Search(buffer: seq<byte>, rules: Rules, from: nat): (c: Option<nat>)
    ensures c.Some? ==> from <= c.value < |buffer| && ValidAt(buffer, rules, c.value)
    decreases |buffer| - from
  {
    if from >= |buffer| then None
    else if ValidAt(buffer, rules, from) then Some(from)
    else Search(buffer, rules, from + 1)
  }

  /** What to do with the front of the buffer: stop for now, or take one piece off it. */
  datatype Move = Stop | Take(piece: Piece, bad: nat)

  /** An incomplete frame gives way to a complete accepted one behind it. */
  function NextMove(buffer: seq<byte>, rules: Rules): (m: Move)
    ensures m.Take? ==> 1 <= |m.piece.bytes| <= |buffer| && m.piece.bytes == buffer[..|m.piece.bytes|]
  {
    match HeadOf(buffer, rules.max)
    case Wait => Stop
    case Noise => Take(Skipped(buffer[..1]), 0)
    case BadLength => Take(Skipped(buffer[..1]), 1)
    case Whole(size) => Take(Frame(buffer[..size]), 0)
    case Partial =>
      match Search(buffer, rules, 2)
      case None => Stop
      case Some(later) => Take(Skipped(buffer[..later]), 1)
  }

  /** Consume the buffer from the front until nothing more can be decided. */
  function Scan(buffer: seq<byte>, rules: Rules): Outcome
    decreases |buffer|
  {
    match NextMove(buffer, rules)
    case Stop => Outcome([], 0, buffer)
    case Take(piece, bad) => After([piece], bad, Scan(buffer[|piece.bytes|..], rules))
  }

  function Frames(pieces: seq<Piece>): seq<seq<byte>> {
    if pieces == [] then []
    else (if pieces[0].Frame? then [pieces[0].bytes] else []) + Frames(pieces[1..])
  }

  function SkippedBytes(pieces: seq<Piece>): nat {
    if pieces == [] then 0
    else (if pieces[0].Skipped? then |pieces[0].bytes| else 0) + SkippedBytes(pieces[1..])
  }

  function FrameBytes(pieces: seq<Piece>): nat {
    if pieces == [] then 0
    else (if pieces[0].Frame? then |pieces[0].bytes| else 0) + FrameBytes(pieces[1..])
  }

  function Flat(pieces: seq<Piece>): seq<byte> {
    if pieces == [] then [] else pieces[0].bytes + Flat(pieces[1..])
  }

  lemma {:induction false} FramesAppend(a: seq<Piece>, b: seq<Piece>)
    ensures Frames(a + b) == Frames(a) + Frames(b)
  {
    if a == [] {
      assert a + b == b;
    } else {
      assert (a + b)[1..] == a[1..] + b;
      FramesAppend(a[1..], b);
      Regroup(if a[0].Frame? then [a[0].bytes] else [], Frames(a[1..]), Frames(b));
    }
  }

  lemma {:induction false} BytesAppend(a: seq<Piece>, b: seq<Piece>)
    ensures SkippedBytes(a + b) == SkippedBytes(a) + SkippedBytes(b)
    ensures FrameBytes(a + b) == FrameBytes(a) + FrameBytes(b)
  {
    if a == [] {
      assert a + b == b;
    } else {
      assert (a + b)[1..] == a[1..] + b;
      BytesAppend(a[1..], b);
    }
  }

  lemma {:induction false} FlatAppend(a: seq<Piece>, b: seq<Piece>)
    ensures Flat(a + b) == Flat(a) + Flat(b)
  {
    if a == [] {
      assert a + b == b;
    } else {
      assert (a + b)[1..] == a[1..] + b;
      FlatAppend(a[1..], b);
      Regroup(a[0].bytes, Flat(a[1..]), Flat(b));
    }
  }

  lemma PiecesAppend(a: seq<Piece>, b: seq<Piece>)
    ensures Frames(a + b) == Frames(a) + Frames(b)
    ensures SkippedBytes(a + b) == SkippedBytes(a) + SkippedBytes(b)
    ensures FrameBytes(a + b) == FrameBytes(a) + FrameBytes(b)
    ensures Flat(a + b) == Flat(a) + Flat(b)
  {
    FramesAppend(a, b);
    BytesAppend(a, b);
    FlatAppend(a, b);
  }

  lemma {:induction false} FlatLength(pieces: seq<Piece>)
    ensures |Flat(pieces)| == FrameBytes(pieces) + SkippedBytes(pieces)
  {
    if pieces != [] {
      FlatLength(pieces[1..]);
    }
  }

  // ---------- the search for a later frame ----------

  /** The search finds the least offset from `from` on, or nothing exactly when there is none. */
  lemma {:induction false} SearchIsLeast(buffer: seq<byte>, rules: Rules, from: nat)
    ensures match Search(buffer, rules, from)
            case None => forall c: nat :: c >= from ==> !ValidAt(buffer, rules, c)
            case Some(found) => from <= found && ValidAt(buffer, rules, found)
                                && forall c: nat :: from <= c < found ==> !ValidAt(buffer, rules, c)
    decreases |buffer| - from
  {
    if from < |buffer| && !ValidAt(buffer, rules, from) {
      SearchIsLeast(buffer, rules, from + 1);
    }
  }

  lemma {:induction false} SearchSkips(buffer: seq<byte>, rules: Rules, from: nat, to: nat)
    requires from <= to && forall c: nat :: from <= c < to ==> !ValidAt(buffer, rules, c)
    ensures Search(buffer, rules, from) == Search(buffer, rules, to)
    decreases |buffer| - from
  {
    if from < to && from < |buffer| {
      assert !ValidAt(buffer, rules, from);
      SearchSkips(buffer, rules, from + 1, to);
    }
  }

  lemma NothingWithoutPrefix(buffer: seq<byte>, rules: Rules, from: nat)
    requires FindPrefix(buffer, from) < 0 || |buffer| - FindPrefix(buffer, from) < 6
    ensures Search(buffer, rules, from).None?
  {
  }

  lemma SearchFromPrefix(buffer: seq<byte>, rules: Rules, from: nat, candidate: nat)
    requires candidate == FindPrefix(buffer, from)
    ensures Search(buffer, rules, from) == Search(buffer, rules, candidate)
  {
    forall c: nat | from <= c < candidate
      ensures !ValidAt(buffer, rules, c)
    {
      assert !PrefixAt(buffer, c);
    }
    SearchSkips(buffer, rules, from, candidate);
  }

  /** Two prefixes cannot overlap, so a refused candidate is skipped whole. */
  lemma NextCandidate(buffer: seq<byte>, rules: Rules, candidate: nat)
    requires PrefixAt(buffer, candidate) && !ValidAt(buffer, rules, candidate)
    ensures Search(buffer, rules, candidate) == Search(buffer, rules, candidate + 2)
  {
    assert !PrefixAt(buffer, candidate + 1);
    SearchSkips(buffer, rules, candidate, candidate + 2);
  }

  /** `buffer.find(prefix, from)`. */
  function FindPrefix(buffer: seq<byte>, from: nat): (at: int)
    ensures at == -1 || (from <= at && PrefixAt(buffer, at))
    ensures forall i: nat :: from <= i && (at < 0 || i < at) ==> !PrefixAt(buffer, i)
    decreases |buffer| - from
  {
    if from + 2 > |buffer| then -1
    else if PrefixAt(buffer, from) then from
    else FindPrefix(buffer, from + 1)
  }

  // ---------- the object of the source ----------

  class LuxFrameDecoder {
    const max: nat
    var buffer: seq<byte>
    var frames: nat
    var discardedBytes: nat
    var malformedLengths: nat

    /** The source raises for a maximum below the smallest frame. */
    constructor (maxFrameSize: nat)
      requires maxFrameSize >= MIN_FRAME_SIZE
      ensures max == maxFrameSize
      ensures buffer == [] && frames == discardedBytes == malformedLengths == 0
    {
      max := maxFrameSize;
      buffer, frames, discardedBytes, malformedLengths := [], 0, 0, 0;
    }

    method Feed(data: seq<byte>) returns (completed: seq<seq<byte>>)
      modifies this
      ensures var o := Scan(old(buffer) + data, Resyncing(max));
              && completed == Frames(o.pieces)
              && buffer == o.rest
              && frames == old(frames) + |completed|
              && discardedBytes == old(discardedBytes) + SkippedBytes(o.pieces)
              && malformedLengths == old(malformedLengths) + o.malformed
    {
      hide AcceptedTranslated, Scan;
      buffer := buffer + data;
      completed := [];
      ghost var rules := Resyncing(max);
      ghost var whole := Scan(buffer, rules);
      ghost var done: seq<Piece>, malformed := [], 0;
      var more := true;
      while more && buffer != []
        invariant whole == After(done, malformed, Scan(buffer, rules))
        invariant !more ==> Scan(buffer, rules) == Outcome([], 0, buffer)
        invariant completed == Frames(done)
        invariant frames == old(frames) + |completed|
        invariant discardedBytes == old(discardedBytes) + SkippedBytes(done)
        invariant malformedLengths == old(malformedLengths) + malformed
        decreases more, |buffer|
      {
        var found: seq<seq<byte>>;
        ghost var pieces, bad;
        more, found, pieces, bad := Turn();
        completed := completed + found;
        done, malformed := Advance(whole, done, malformed, pieces, bad, Scan(buffer, rules));
      }
      if buffer == [] {
        ScanOfShortFront(buffer, rules);
      }
      assert done + [] == done;
    }

    /** One turn of the loop in `feed`: false when the source breaks out of it. */
    method Turn() returns (more: bool, found: seq<seq<byte>>, ghost pieces: seq<Piece>, ghost bad: nat)
      requires buffer != []
      modifies this
      ensures Scan(old(buffer), Resyncing(max)) == After(pieces, bad, Scan(buffer, Resyncing(max)))
      ensures if more then |buffer| < |old(buffer)| else Scan(buffer, Resyncing(max)) == Outcome([], 0, buffer)
      ensures found == Frames(pieces) && frames == old(frames) + |found|
      ensures discardedBytes == old(discardedBytes) + SkippedBytes(pieces)
      ensures malformedLengths == old(malformedLengths) + bad
    {
      hide AcceptedTranslated, Scan, Search, HeadOf, NextMove;
      ghost var rules := Resyncing(max);
      found, bad := [], 0;
      var frameStart := FindPrefix(buffer, 0);
      if frameStart < 0 {
        var retained := if buffer[|buffer| - 1] == PREFIX[0] then 1 else 0;
        var discarded := |buffer| - retained;
        NoiseSkipped(buffer, rules, discarded);
        pieces := Singles(buffer[..discarded]);
        discardedBytes := discardedBytes + discarded;
        buffer := buffer[discarded..];
        ScanOfShortFront(buffer, rules);
        return false, found, pieces, bad;
      }
      NoiseSkipped(buffer, rules, frameStart);
      pieces := Singles(buffer[..frameStart]);
      buffer := buffer[frameStart..];
      discardedBytes := discardedBytes + frameStart;
      if |buffer| < 6 {
        ScanOfShortFront(buffer, rules);
        return false, found, pieces, bad;
      }
      ghost var piece;
      more, found, piece, bad := TakeFront();
      if more {
        pieces, bad := AdvanceOne(pieces, piece, bad, Scan(buffer, rules));
      }
    }

    /** What the turn does with a prefix and a length at the front. */
    method TakeFront() returns (more: bool, found: seq<seq<byte>>, ghost piece: Piece, ghost bad: nat)
      requires PrefixAt(buffer, 0) && |buffer| >= 6
      modifies this
      ensures more ==> Scan(old(buffer), Resyncing(max)) == After([piece], bad, Scan(buffer, Resyncing(max)))
      ensures more ==> |buffer| < |old(buffer)| && found == if piece.Frame? then [piece.bytes] else []
      ensures !more ==> Scan(buffer, Resyncing(max)) == Outcome([], 0, buffer) && buffer == old(buffer)
                        && found == [] && bad == 0
      ensures frames == old(frames) + |found|
      ensures discardedBytes == old(discardedBytes) + if more && !piece.Frame? then |piece.bytes| else 0
      ensures malformedLengths == old(malformedLengths) + bad
    {
      hide AcceptedTranslated, Scan, Search, HeadOf, NextMove;
      ghost var rules := Resyncing(max);
      found, piece, bad := [], Skipped(buffer[..1]), 0;
      var declared := DeclaredSize(buffer);
      var taken: nat;
      if !(MIN_FRAME_SIZE <= declared <= max) {
        ScanOfBadLength(buffer, rules);
        taken := 1;
        discardedBytes := discardedBytes + 1;
        malformedLengths := malformedLengths + 1;
        bad := 1;
      } else if |buffer| < declared {
        ScanOfPartial(buffer, rules);
        var laterStart := FindValidLaterFrame();
        if laterStart.None? {
          return false, found, piece, bad;
        }
        taken := laterStart.value;
        discardedBytes := discardedBytes + taken;
        malformedLengths := malformedLengths + 1;
        piece, bad := Skipped(buffer[..taken]), 1;
      } else {
        ScanOfWhole(buffer, rules);
        taken := declared;
        found := [buffer[..declared]];
        frames := frames + 1;
        piece := Frame(buffer[..declared]);
      }
      buffer := buffer[taken..];
      more := true;
    }

    method FindValidLaterFrame() returns (found: Option<nat>)
      ensures found == Search(buffer, Resyncing(max), 2)
    {
      hide AcceptedTranslated;
      var searchFrom := 2;
      ghost var rules := Resyncing(max);
      while true
        invariant searchFrom >= 2
        invariant Search(buffer, rules, 2) == Search(buffer, rules, searchFrom)
        decreases |buffer| - searchFrom
      {
        var candidate := FindPrefix(buffer, searchFrom);
        if candidate < 0 || |buffer| - candidate < 6 {
          NothingWithoutPrefix(buffer, rules, searchFrom);
          return None;
        }
        SearchFromPrefix(buffer, rules, searchFrom, candidate);
        var valid := CheckCandidate(candidate);
        if valid {
          return Some(candidate);
        }
        NextCandidate(buffer, rules, candidate);
        searchFrom := candidate + 2;
      }
    }

    /** The candidate's length is plausible, all its bytes are here, and the parser accepts it. */
    method CheckCandidate(candidate: nat) returns (valid: bool)
      requires PrefixAt(buffer, candidate) && |buffer| - candidate >= 6
      ensures valid <==> ValidAt(buffer, Resyncing(max), candidate)
    {
      hide AcceptedTranslated;
      var size := LittleEndian(buffer[candidate + 4..candidate + 6]) + 6;
      if MIN_FRAME_SIZE <= size <= max && |buffer| - candidate >= size {
        var frame := buffer[candidate..candidate + size];
        SliceOfSlice(buffer, candidate, size, 4, 6);
        valid := Accepts(frame);
      } else {
        valid := false;
      }
    }

    /** The parser's verdict; on a framed packet parsing cannot fail. */
    method Accepts(frame: seq<byte>) returns (accepted: bool)
      requires Framed(frame)
      ensures accepted <==> AcceptedTranslated(frame)
    {
      var response := ParseResponse(frame);
      FramedNeverRaises(frame);
      hide Parse;
      accepted := !response.packetError && response.tcpFunction == TRANSLATED_DATA;
    }

    /** Gives up a stale partial frame; false when there was nothing to give up. */
    method DiscardPartial() returns (dropped: bool)
      modifies this
      ensures dropped <==> old(buffer) != []
      ensures buffer == [] && frames == old(frames)
      ensures discardedBytes == old(discardedBytes) + |old(buffer)|
      ensures malformedLengths == old(malformedLengths) + if dropped then 1 else 0
    {
      if buffer == [] {
        return false;
      }
      discardedBytes := discardedBytes + |buffer|;
      buffer := [];
      malformedLengths := malformedLengths + 1;
      return true;
    }

    method Reset()
      modifies this
      ensures buffer == [] && frames == discardedBytes == malformedLengths == 0
    {
      buffer, frames, discardedBytes, malformedLengths := [], 0, 0, 0;
    }
  }

  /** Bytes given up one at a time. */
  ghost function Singles(s: seq<byte>): (p: seq<Piece>)
    ensures Frames(p) == [] && SkippedBytes(p) == |s|
  {
    if s == [] then [] else [Skipped(s[..1])] + Singles(s[1..])
  }

  lemma AfterAfter(a: seq<Piece>, m: nat, b: seq<Piece>, n: nat, o: Outcome)
    ensures After(a, m, After(b, n, o)) == After(a + b, m + n, o)
  {
    assert a + (b + o.pieces) == a + b + o.pieces;
  }

  /** Moving pieces from what a scan still has to do to what is done. */
  lemma Advance(whole: Outcome, done: seq<Piece>, malformed: nat, more: seq<Piece>, bad: nat, next: Outcome)
    returns (done': seq<Piece>, malformed': nat)
    requires whole == After(done, malformed, After(more, bad, next))
    ensures done' == done + more && malformed' == malformed + bad
    ensures whole == After(done', malformed', next)
    ensures Frames(done') == Frames(done) + Frames(more)
    ensures SkippedBytes(done') == SkippedBytes(done) + SkippedBytes(more)
  {
    done', malformed' := done + more, malformed + bad;
    PiecesAppend(done, more);
    AfterAfter(done, malformed, more, bad, next);
  }

  /** The last piece of a turn, behind the noise in front of it. */
  lemma AdvanceOne(noise: seq<Piece>, piece: Piece, bad: nat, next: Outcome) returns (pieces: seq<Piece>, bad': nat)
    ensures pieces == noise + [piece] && bad' == bad
    ensures After(noise, 0, After([piece], bad, next)) == After(pieces, bad, next)
    ensures Frames(pieces) == Frames(noise) + if piece.Frame? then [piece.bytes] else []
    ensures SkippedBytes(pieces) == SkippedBytes(noise) + if piece.Frame? then 0 else |piece.bytes|
  {
    pieces, bad' := noise + [piece], bad;
    PiecesAppend(noise, [piece]);
    AfterAfter(noise, 0, [piece], bad, next);
  }

  // The moves of the scan, one by one.

  lemma ScanOfShortFront(buffer: seq<byte>, rules: Rules)
    requires |buffer| == 0 || (|buffer| == 1 && buffer[0] == PREFIX[0]) || (PrefixAt(buffer, 0) && |buffer| < 6)
    ensures Scan(buffer, rules) == Outcome([], 0, buffer)
  {
  }

  lemma ScanOfNoise(buffer: seq<byte>, rules: Rules)
    requires |buffer| >= 1 && !PrefixAt(buffer, 0) && (|buffer| == 1 ==> buffer[0] != PREFIX[0])
    ensures Scan(buffer, rules) == After([Skipped(buffer[..1])], 0, Scan(buffer[1..], rules))
  {
    assert HeadOf(buffer, rules.max) == Noise;
  }

  lemma ScanOfBadLength(buffer: seq<byte>, rules: Rules)
    requires PrefixAt(buffer, 0) && |buffer| >= 6 && !(MIN_FRAME_SIZE <= DeclaredSize(buffer) <= rules.max)
    ensures Scan(buffer, rules) == After([Skipped(buffer[..1])], 1, Scan(buffer[1..], rules))
  {
    assert HeadOf(buffer, rules.max) == BadLength;
  }

  lemma ScanOfPartial(buffer: seq<byte>, rules: Rules)
    requires PrefixAt(buffer, 0) && |buffer| >= 6
    requires MIN_FRAME_SIZE <= DeclaredSize(buffer) <= rules.max && |buffer| < DeclaredSize(buffer)
    ensures var later := Search(buffer, rules, 2);
            Scan(buffer, rules) == if later.None? then Outcome([], 0, buffer)
                                   else After([Skipped(buffer[..later.value])], 1, Scan(buffer[later.value..], rules))
  {
    assert HeadOf(buffer, rules.max) == Partial;
  }

  lemma ScanOfWhole(buffer: seq<byte>, rules: Rules)
    requires PrefixAt(buffer, 0) && |buffer| >= 6
    requires MIN_FRAME_SIZE <= DeclaredSize(buffer) <= rules.max && |buffer| >= DeclaredSize(buffer)
    ensures var size := DeclaredSize(buffer);
            Scan(buffer, rules) == After([Frame(buffer[..size])], 0, Scan(buffer[size..], rules))
  {
    assert HeadOf(buffer, rules.max) == Whole(DeclaredSize(buffer));
  }

  /** Skipping to the next prefix at once is giving up the bytes before it one at a time. */
  lemma {:induction false} NoiseSkipped(buffer: seq<byte>, rules: Rules, k: nat)
    requires k <= |buffer|
    requires forall i: nat :: i < k ==> !PrefixAt(buffer, i)
    requires k == |buffer| > 0 ==> buffer[k - 1] != PREFIX[0]
    ensures Scan(buffer, rules) == After(Singles(buffer[..k]), 0, Scan(buffer[k..], rules))
    decreases k
  {
    hide Scan;
    if k == 0 {
      assert buffer[0..] == buffer;
    } else {
      assert !PrefixAt(buffer, 0);
      ScanOfNoise(buffer, rules);
      forall i: nat | i < k - 1
        ensures !PrefixAt(buffer[1..], i)
      {
        assert !PrefixAt(buffer, i + 1);
      }
      NoiseSkipped(buffer[1..], rules, k - 1);
      assert buffer[..k][1..] == buffer[1..][..k - 1] && buffer[1..][k - 1..] == buffer[k..];
      assert buffer[..k][..1] == buffer[..1];
      AfterAfter([Skipped(buffer[..1])], 0, Singles(buffer[1..][..k - 1]), 0, Scan(buffer[k..], rules));
    }
  }
}
