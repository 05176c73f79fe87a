/** What the frame decoder does to a whole stream, however the network cut it into chunks. */
module StreamFraming {
  import opened Options
  import opened Bytes
  import opened FrameDecoder

  // ---------- conservation ----------

  lemma FlatCons(piece: Piece, pieces: seq<Piece>)
    ensures Flat([piece] + pieces) == piece.bytes + Flat(pieces)
  {
    assert ([piece] + pieces)[1..] == pieces;
  }

  lemma {:induction false} ScanConserves(buffer: seq<byte>, rules: Rules)
    ensures Flat(Scan(buffer, rules).pieces) + Scan(buffer, rules).rest == buffer
    decreases |buffer|
  {
    hide NextMove;
    match NextMove(buffer, rules)
    case Stop =>
    case Take(piece, bad) =>
      var n := |piece.bytes|;
      ScanConserves(buffer[n..], rules);
      var tail := Scan(buffer[n..], rules);
      FlatCons(piece, tail.pieces);
      assert Scan(buffer, rules) == After([piece], bad, tail);
      hide Scan, Flat;
      Regroup(piece.bytes, Flat(tail.pieces), tail.rest);
      Parts(buffer, [], buffer[..n], buffer[n..]);
  }

  /** Pieces given up where a prefix stands: an impossible length, or a partial frame that is resynchronised across. */
  function GivenUpPrefixes(buffer: seq<byte>, pieces: seq<Piece>): nat
    decreases |pieces|
  {
    if pieces == [] || |pieces[0].bytes| > |buffer| then 0
    else (if pieces[0].Skipped? && |buffer| >= 2 && buffer[..2] == PREFIX then 1 else 0)
         + GivenUpPrefixes(buffer[|pieces[0].bytes|..], pieces[1..])
  }

  lemma OneGivenUp(buffer: seq<byte>, rules: Rules)
    requires NextMove(buffer, rules).Take?
    ensures var m := NextMove(buffer, rules);
            |m.piece.bytes| <= |buffer|
            && m.bad == if m.piece.Skipped? && |buffer| >= 2 && buffer[..2] == PREFIX then 1 else 0
  {
    hide Search;
    assert |buffer| >= 2 ==> (PrefixAt(buffer, 0) <==> buffer[..2] == PREFIX);
  }

  /** The malformed count is the number of places where a frame should have begun and its bytes were given up. */
  lemma {:induction false} MalformedExactly(buffer: seq<byte>, rules: Rules)
    ensures Scan(buffer, rules).malformed == GivenUpPrefixes(buffer, Scan(buffer, rules).pieces)
    decreases |buffer|
  {
    hide NextMove;
    match NextMove(buffer, rules)
    case Stop =>
    case Take(piece, bad) =>
      OneGivenUp(buffer, rules);
      var tail := Scan(buffer[|piece.bytes|..], rules);
      MalformedExactly(buffer[|piece.bytes|..], rules);
      assert ([piece] + tail.pieces)[1..] == tail.pieces;
  }

  /** A scan leaves less than one frame behind, and what it leaves is where it stopped. */
  lemma {:induction false} ScanRest(buffer: seq<byte>, rules: Rules)
    requires rules.max >= MIN_FRAME_SIZE
    ensures |Scan(buffer, rules).rest| < rules.max
    ensures NextMove(Scan(buffer, rules).rest, rules) == Stop
    decreases |buffer|
  {
    hide Search;
    if NextMove(buffer, rules).Take? {
      ScanRest(buffer[|NextMove(buffer, rules).piece.bytes|..], rules);
    }
  }

  datatype Op = Feed(data: seq<byte>) | DiscardPartial

  /** Everything a decoder has done since it was created: its pieces, its counters and its buffer. */
  datatype Ledger = Ledger(pieces: seq<Piece>, malformed: nat, buffer: seq<byte>)

  function Apply(l: Ledger, op: Op, rules: Rules): Ledger {
    match op
    case Feed(data) =>
      var o := Scan(l.buffer + data, rules);
      Ledger(l.pieces + o.pieces, l.malformed + o.malformed, o.rest)
    case DiscardPartial =>
      if l.buffer == [] then l else Ledger(l.pieces + [Skipped(l.buffer)], l.malformed + 1, [])
  }

  function Run(ops: seq<Op>, rules: Rules): Ledger {
    if ops == [] then Ledger([], 0, [])
    else Apply(Run(ops[..|ops| - 1], rules), ops[|ops| - 1], rules)
  }

  function Stream(ops: seq<Op>): seq<byte> {
    if ops == [] then []
    else
      var op := ops[|ops| - 1];
      Stream(ops[..|ops| - 1]) + if op.Feed? then op.data else []
  }

  lemma ApplyConserves(l: Ledger, op: Op, rules: Rules)
    ensures Flat(Apply(l, op, rules).pieces) + Apply(l, op, rules).buffer
         == Flat(l.pieces) + l.buffer + if op.Feed? then op.data else []
  {
    hide Scan;
    match op
    case Feed(data) =>
      var o := Scan(l.buffer + data, rules);
      ScanConserves(l.buffer + data, rules);
      PiecesAppend(l.pieces, o.pieces);
      assert Flat(l.pieces) + Flat(o.pieces) + o.rest == Flat(l.pieces) + (Flat(o.pieces) + o.rest);
      assert Flat(l.pieces) + (l.buffer + data) == Flat(l.pieces) + l.buffer + data;
    case DiscardPartial =>
      PiecesAppend(l.pieces, [Skipped(l.buffer)]);
      assert Flat([Skipped(l.buffer)]) == l.buffer;
  }

  /**
   * Over any run of feeds and discards the stream is exactly the handed-over frames and the given-up bytes,
   * in order and without overlap, followed by the buffer; so the byte counts add up.
   */
  lemma {:induction false} RunConserves(ops: seq<Op>, rules: Rules)
    ensures Flat(Run(ops, rules).pieces) + Run(ops, rules).buffer == Stream(ops)
    ensures |Stream(ops)|
            == FrameBytes(Run(ops, rules).pieces) + SkippedBytes(Run(ops, rules).pieces) + |Run(ops, rules).buffer|
    decreases |ops|
  {
    FlatLength(Run(ops, rules).pieces);
    if ops != [] {
      var last := |ops| - 1;
      RunConserves(ops[..last], rules);
      ApplyConserves(Run(ops[..last], rules), ops[last], rules);
    }
  }

  /** After a feed fewer bytes than one maximal frame stay buffered. */
  lemma BufferStaysBounded(ops: seq<Op>, data: seq<byte>, rules: Rules)
    requires rules.max >= MIN_FRAME_SIZE
    ensures |Run(ops + [Feed(data)], rules).buffer| < rules.max
  {
    assert (ops + [Feed(data)])[..|ops|] == ops;
    ScanRest(Run(ops, rules).buffer + data, rules);
  }

  // ---------- the resync search and the reference without it ----------

  lemma {:induction false} WaitingFindsNothing(buffer: seq<byte>, max: nat, from: nat)
    ensures Search(buffer, Waiting(max), from).None?
    decreases |buffer| - from
  {
    if from < |buffer| {
      WaitingFindsNothing(buffer, max, from + 1);
    }
  }

  /** The resync search finds nothing where the reference stops waiting. */
  predicate Quiet(buffer: seq<byte>, rules: Rules) {
    Search(Scan(buffer, Waiting(rules.max)).rest, rules, 2).None?
  }

  /** Both sets of rules agree on the next move unless the search finds something in a partial frame. */
  lemma MovesAgree(buffer: seq<byte>, rules: Rules)
    ensures NextMove(buffer, Waiting(rules.max)).Take?
            ==> NextMove(buffer, rules) == NextMove(buffer, Waiting(rules.max))
    ensures NextMove(buffer, Waiting(rules.max)).Stop? && Search(buffer, rules, 2).None?
            ==> NextMove(buffer, rules).Stop?
    ensures NextMove(buffer, Waiting(rules.max)).Stop? && Search(buffer, rules, 2).Some?
        ==> NextMove(buffer, rules) == Take(Skipped(buffer[..Search(buffer, rules, 2).value]), 1)
  {
    hide Search;
    WaitingFindsNothing(buffer, rules.max, 2);
    if Search(buffer, rules, 2).Some? {
      SearchIsLeast(buffer, rules, 2);
      assert |buffer| >= 10;
    }
  }

  /** After resynchronising, the very next piece is the frame that was found. */
  lemma ResyncEmits(buffer: seq<byte>, rules: Rules, later: nat)
    requires Search(buffer, rules, 2) == Some(later)
    ensures Frames(Scan(buffer[later..], rules).pieces) != []
  {
    hide Search, Scan, SkippedBytes, Flat;
    assert ValidAt(buffer, rules, later);
    var tail := buffer[later..];
    assert PrefixAt(tail, 0) && tail[4..6] == buffer[later + 4..later + 6];
    ScanOfWhole(tail, rules);
    var size := DeclaredSize(tail);
    PiecesAppend([Frame(tail[..size])], Scan(tail[size..], rules).pieces);
  }

  predicate Prefix<T(==)>(a: seq<T>, b: seq<T>) {
    |a| <= |b| && b[..|a|] == a
  }

  /**
   * What resynchronisation changes: never a frame the reference would have handed over, and something
   * exactly when the search finds a frame behind the one being waited for.
   */
  lemma {:induction false} ResyncOnlyAdds(buffer: seq<byte>, rules: Rules)
    ensures Prefix(Frames(Scan(buffer, Waiting(rules.max)).pieces), Frames(Scan(buffer, rules).pieces))
    ensures Frames(Scan(buffer, Waiting(rules.max)).pieces) == Frames(Scan(buffer, rules).pieces)
            <==> Quiet(buffer, rules)
    ensures Quiet(buffer, rules) ==> Scan(buffer, rules) == Scan(buffer, Waiting(rules.max))
    decreases |buffer|
  {
    hide NextMove, Search, SkippedBytes, Flat, FrameBytes;
    var w := Waiting(rules.max);
    MovesAgree(buffer, rules);
    match NextMove(buffer, w)
    case Take(piece, bad) =>
      var tail := buffer[|piece.bytes|..];
      ResyncOnlyAdds(tail, rules);
      PiecesAppend([piece], Scan(tail, w).pieces);
      PiecesAppend([piece], Scan(tail, rules).pieces);
      var head := Frames([piece]);
      assert (head + Frames(Scan(tail, rules).pieces))[|head|..] == Frames(Scan(tail, rules).pieces);
    case Stop =>
      if Search(buffer, rules, 2).Some? {
        var later := Search(buffer, rules, 2).value;
        ResyncEmits(buffer, rules, later);
        PiecesAppend([Skipped(buffer[..later])], Scan(buffer[later..], rules).pieces);
      }
  }

  // ---------- chunk invariance ----------

  /** A longer stream is scanned by scanning its beginning and carrying the rest over. */
  lemma {:induction false} WaitingScanSplits(a: seq<byte>, b: seq<byte>, max: nat)
    ensures var first := Scan(a, Waiting(max));
            Scan(a + b, Waiting(max)) == After(first.pieces, first.malformed, Scan(first.rest + b, Waiting(max)))
    decreases |a|
  {
    hide Search, Frames, SkippedBytes, Flat, FrameBytes, NextMove;
    var w := Waiting(max);
    match NextMove(a, w)
    case Stop =>
      assert [] + Scan(a + b, w).pieces == Scan(a + b, w).pieces;
    case Take(piece, bad) =>
      var n := |piece.bytes|;
      SameMove(a, b, max);
      WaitingScanSplits(a[n..], b, max);
      var first := Scan(a[n..], w);
      assert (a + b)[n..] == a[n..] + b;
      AfterAfter([piece], bad, first.pieces, first.malformed, Scan(first.rest + b, w));
  }

  /** More bytes behind the buffer do not change a move that could already be made. */
  lemma SameMove(a: seq<byte>, b: seq<byte>, max: nat)
    requires NextMove(a, Waiting(max)).Take?
    ensures NextMove(a + b, Waiting(max)) == NextMove(a, Waiting(max))
  {
    hide Search;
    WaitingFindsNothing(a, max, 2);
    WaitingFindsNothing(a + b, max, 2);
    assert PrefixAt(a, 0) ==> PrefixAt(a + b, 0);
    assert |a| >= 6 ==> (a + b)[4..6] == a[4..6];
    var n := |NextMove(a, Waiting(max)).piece.bytes|;
    assert (a + b)[..n] == a[..n];
    assert |a| >= 2 ==> (PrefixAt(a + b, 0) <==> PrefixAt(a, 0));
    if |a| == 1 {
      assert a[0] != PREFIX[0];
      assert !PrefixAt(a + b, 0);
    }
  }

  function Join(chunks: seq<seq<byte>>): seq<byte> {
    if chunks == [] then [] else Join(chunks[..|chunks| - 1]) + chunks[|chunks| - 1]
  }

  /** The first chunks are the beginning of the stream. */
  lemma {:induction false} JoinBeginning(chunks: seq<seq<byte>>, i: nat)
    requires i <= |chunks|
    ensures |Join(chunks[..i])| <= |Join(chunks)| && Join(chunks)[..|Join(chunks[..i])|] == Join(chunks[..i])
    decreases |chunks|
  {
    if i == |chunks| {
      assert chunks[..i] == chunks;
    } else {
      var before := chunks[..|chunks| - 1];
      assert before[..i] == chunks[..i];
      JoinBeginning(before, i);
    }
  }

  function Feeds(chunks: seq<seq<byte>>): seq<Op> {
    seq(|chunks|, i requires 0 <= i < |chunks| => Feed(chunks[i]))
  }

  /** The search stays silent on every beginning of the stream. */
  ghost predicate QuietThroughout(s: seq<byte>, rules: Rules) {
    forall k: nat :: k <= |s| ==> Quiet(s[..k], rules)
  }

  /** The search stays silent wherever a chunk ends. */
  ghost predicate QuietAtCuts(chunks: seq<seq<byte>>, rules: Rules) {
    forall i :: 0 <= i <= |chunks| ==> Quiet(Join(chunks[..i]), rules)
  }

  /**
   * If the search stays silent wherever a chunk ends, the frames, the given-up bytes, the malformed count and the
   * final buffer depend only on the concatenation: they are the ones of a single pass without resynchronisation.
   */
  lemma {:induction false} ChunkInvariance(chunks: seq<seq<byte>>, rules: Rules)
    requires QuietAtCuts(chunks, rules)
    ensures var once := Scan(Join(chunks), Waiting(rules.max));
            Run(Feeds(chunks), rules) == Ledger(once.pieces, once.malformed, once.rest)
    decreases |chunks|
  {
    hide Quiet, Search, NextMove, Scan, Frames, SkippedBytes, Flat, FrameBytes;
    var w := Waiting(rules.max);
    if chunks == [] {
      ScanOfShortFront([], w);
    } else {
      var last := |chunks| - 1;
      var before, chunk := chunks[..last], chunks[last];
      var s := Join(before);
      forall i | 0 <= i <= last
        ensures Quiet(Join(before[..i]), rules)
      {
        assert before[..i] == chunks[..i];
      }
      ChunkInvariance(before, rules);
      assert Feeds(chunks)[..last] == Feeds(before);
      var first := Scan(s, w);
      WaitingScanSplits(s, chunk, rules.max);
      assert chunks[..|chunks|] == chunks;
      CarryOver(s + chunk, first.rest + chunk, rules);
      ResyncOnlyAdds(first.rest + chunk, rules);
    }
  }

  /** Silence where the whole stream stops is silence where the carried-over buffer stops. */
  lemma CarryOver(whole: seq<byte>, carried: seq<byte>, rules: Rules)
    requires Scan(whole, Waiting(rules.max)).rest == Scan(carried, Waiting(rules.max)).rest
    ensures Quiet(whole, rules) <==> Quiet(carried, rules)
  {
  }

  /** Two ways of cutting the same stream, both silent at their own cuts, cannot be told apart. */
  lemma CutsDoNotMatter(chunks: seq<seq<byte>>, others: seq<seq<byte>>, rules: Rules)
    requires Join(chunks) == Join(others) && QuietAtCuts(chunks, rules) && QuietAtCuts(others, rules)
    ensures Run(Feeds(chunks), rules) == Run(Feeds(others), rules)
  {
    ChunkInvariance(chunks, rules);
    ChunkInvariance(others, rules);
  }

  /** Silence is also necessary: a beginning of the stream on which the search speaks up is scanned differently. */
  lemma QuietExactly(s: seq<byte>, rules: Rules)
    ensures QuietThroughout(s, rules)
       <==> forall k: nat :: k <= |s| ==> Scan(s[..k], rules) == Scan(s[..k], Waiting(rules.max))
  {
    hide Quiet, Scan;
    forall k: nat | k <= |s|
      ensures Quiet(s[..k], rules) <==> Scan(s[..k], rules) == Scan(s[..k], Waiting(rules.max))
    {
      ResyncOnlyAdds(s[..k], rules);
    }
  }

  /** A plausible header in front of a frame, declaring more bytes than that frame has. */
  function Envelope(f: seq<byte>, padding: nat): seq<byte>
    requires |f| + padding < 0x1_0000
  {
    PREFIX + [0, 0] + TwoBytes(|f| + padding)
  }

  /**
   * With an acceptable frame inside a larger one chunking does matter: in one chunk the outer frame is handed over,
   * but cut behind the inner frame the decoder resynchronises and hands over the inner one first.
   */
  lemma ChunkingCanMatter(f: seq<byte>, pad: seq<byte>, s: seq<byte>, rules: Rules)
    requires WellFormed(f, rules.max) && rules.accept(f) && pad != [] && rules.max <= MAX_PACKET_SIZE
    requires 6 + |f| + |pad| <= rules.max && s == Envelope(f, |pad|) + f + pad
    ensures Frames(Scan(s, rules).pieces) == [s]
    ensures Prefix([f], Frames(Scan(s[..6 + |f|], rules).pieces))
  {
    OuterFrame(f, pad, s, rules);
    assert s[..6 + |f|] == Envelope(f, |pad|) + f;
    InnerFrame(f, |pad|, s[..6 + |f|], rules);
    hide *;
  }

  /** In one chunk the header gets all the bytes it promised. */
  lemma OuterFrame(f: seq<byte>, pad: seq<byte>, s: seq<byte>, rules: Rules)
    requires WellFormed(f, rules.max) && 6 + |f| + |pad| <= rules.max <= MAX_PACKET_SIZE
    requires s == Envelope(f, |pad|) + f + pad
    ensures Frames(Scan(s, rules).pieces) == [s]
  {
    hide Scan, Search, SkippedBytes, Flat, FrameBytes;
    assert s[4..6] == TwoBytes(|f| + |pad|) && PrefixAt(s, 0);
    ScanOfWhole(s, rules);
    ScanOfShortFront([], rules);
    assert s[|s|..] == [] && s[..|s|] == s;
    assert Scan(s, rules) == After([Frame(s)], 0, Outcome([], 0, []));
  }

  /** While it waits for the last of them, the inner frame is found. */
  lemma InnerFrame(f: seq<byte>, padding: nat, a: seq<byte>, rules: Rules)
    requires WellFormed(f, rules.max) && rules.accept(f) && padding > 0
    requires 6 + |f| + padding <= rules.max <= MAX_PACKET_SIZE && a == Envelope(f, padding) + f
    ensures Prefix([f], Frames(Scan(a, rules).pieces))
  {
    hide Scan, Search, SkippedBytes, Flat, FrameBytes;
    assert a[6..] == f && a[4..6] == TwoBytes(|f| + padding) && PrefixAt(a, 0);
    ScanOfPartial(a, rules);
    InnerFrameFound(f, a, rules);
    ScanOfWhole(f, rules);
    assert f[..|f|] == f;
    PiecesAppend([Skipped(a[..6])], Scan(f, rules).pieces);
    PiecesAppend([Frame(f)], Scan(f[|f|..], rules).pieces);
    assert Frames([Frame(f)]) == [f];
  }

  lemma InnerFrameFound(f: seq<byte>, a: seq<byte>, rules: Rules)
    requires WellFormed(f, rules.max) && rules.accept(f)
    requires |a| == 6 + |f| && a[2] == a[3] == 0 && a[6..] == f && LittleEndian(a[4..6]) < MAX_PACKET_SIZE
    ensures Search(a, rules, 2) == Some(6)
  {
    hide Search;
    assert a[10..12] == f[4..6] && a[6..6 + |f|] == f;
    assert ValidAt(a, rules, 6);
    assert a[6] == f[0] == PREFIX[0];
    assert !PrefixAt(a, 2) && !PrefixAt(a, 3) && !PrefixAt(a, 5);
    assert !PrefixAt(a, 4) by {
      assert LittleEndian(a[4..6]) == a[4] + 256 * (a[5] as int);
    }
    SearchIsLeast(a, rules, 2);
  }

  // ---------- clean streams ----------

  /** A well-formed frame: its header declares its own length, within bounds. */
  predicate WellFormed(f: seq<byte>, max: nat) {
    |f| >= MIN_FRAME_SIZE && PrefixAt(f, 0) && |f| == DeclaredSize(f) <= max
  }

  /** No complete frame that the decoder would resynchronise on hides inside `f`. */
  ghost predicate NothingEmbedded(f: seq<byte>, rules: Rules) {
    forall c: nat :: c >= 2 ==> !ValidAt(f, rules, c)
  }

  ghost predicate Clean(frames: seq<seq<byte>>, rules: Rules) {
    forall i :: 0 <= i < |frames| ==> WellFormed(frames[i], rules.max) && NothingEmbedded(frames[i], rules)
  }

  function Concat(frames: seq<seq<byte>>): seq<byte> {
    if frames == [] then [] else frames[0] + Concat(frames[1..])
  }

  function AsPieces(frames: seq<seq<byte>>): seq<Piece> {
    seq(|frames|, i requires 0 <= i < |frames| => Frame(frames[i]))
  }

  lemma {:induction false} CleanScan(frames: seq<seq<byte>>, rules: Rules)
    requires Clean(frames, rules)
    ensures Scan(Concat(frames), Waiting(rules.max)) == Outcome(AsPieces(frames), 0, [])
  {
    hide Scan, NextMove, HeadOf, Search, ValidAt, Frames, SkippedBytes, Flat, FrameBytes;
    var w := Waiting(rules.max);
    if frames == [] {
      ScanOfShortFront([], w);
    } else {
      var f, tail := frames[0], Concat(frames[1..]);
      var s := f + tail;
      assert WellFormed(f, rules.max);
      assert s[4..6] == f[4..6] && s[..|f|] == f && s[|f|..] == tail;
      ScanOfWhole(s, w);
      CleanScan(frames[1..], rules);
      assert [Frame(f)] + AsPieces(frames[1..]) == AsPieces(frames);
    }
  }

  /** What an incomplete clean stream leaves in the buffer is the beginning of one of its frames. */
  lemma {:induction false} CleanStreamIsQuiet(frames: seq<seq<byte>>, rules: Rules, k: nat)
    requires Clean(frames, rules) && k <= |Concat(frames)|
    ensures Quiet(Concat(frames)[..k], rules)
    decreases |frames|
  {
    hide NextMove, HeadOf, Frames, SkippedBytes, Flat, FrameBytes, Search, ValidAt;
    var w := Waiting(rules.max);
    if frames == [] {
      ScanOfShortFront([], w);
    } else {
      var f, tail := frames[0], Concat(frames[1..]);
      var s := Concat(frames)[..k];
      assert WellFormed(f, rules.max) && NothingEmbedded(f, rules);
      if k < |f| {
        assert s == f[..k];
        IncompleteFrameWaits(f, k, rules.max);
        ShorterIsSilent(f, k, rules);
      } else {
        assert s == f + tail[..k - |f|];
        assert s[4..6] == f[4..6] && s[|f|..] == tail[..k - |f|];
        assert PrefixAt(s, 0);
        ScanOfWhole(s, w);
        CleanStreamIsQuiet(frames[1..], rules, k - |f|);
      }
    }
  }

  lemma IncompleteFrameWaits(f: seq<byte>, k: nat, max: nat)
    requires WellFormed(f, max) && k < |f|
    ensures Scan(f[..k], Waiting(max)) == Outcome([], 0, f[..k])
  {
    hide Search, Scan;
    var s := f[..k];
    WaitingFindsNothing(s, max, 2);
    if k < 6 {
      ScanOfShortFront(s, Waiting(max));
    } else {
      assert s[4..6] == f[4..6];
      ScanOfPartial(s, Waiting(max));
    }
  }

  lemma ValidInBeginning(f: seq<byte>, k: nat, rules: Rules, c: nat)
    requires k <= |f| && ValidAt(f[..k], rules, c)
    ensures ValidAt(f, rules, c)
  {
    assert f[..k][c + 4..c + 6] == f[c + 4..c + 6];
    var size := LittleEndian(f[c + 4..c + 6]) + 6;
    assert f[..k][c..c + size] == f[c..c + size];
  }

  lemma ShorterIsSilent(f: seq<byte>, k: nat, rules: Rules)
    requires NothingEmbedded(f, rules) && k <= |f|
    ensures Search(f[..k], rules, 2).None?
  {
    if Search(f[..k], rules, 2).Some? {
      ValidInBeginning(f, k, rules, Search(f[..k], rules, 2).value);
    }
  }

  /** Any chunking of a concatenation of clean frames hands over exactly those frames and gives nothing up. */
  lemma CleanStreamRecovered(frames: seq<seq<byte>>, chunks: seq<seq<byte>>, rules: Rules)
    requires Clean(frames, rules) && Join(chunks) == Concat(frames)
    ensures Run(Feeds(chunks), rules) == Ledger(AsPieces(frames), 0, [])
    ensures Frames(AsPieces(frames)) == frames && SkippedBytes(AsPieces(frames)) == 0
  {
    hide Quiet, Scan;
    forall i | 0 <= i <= |chunks| ensures Quiet(Join(chunks[..i]), rules) {
      JoinBeginning(chunks, i);
      CleanStreamIsQuiet(frames, rules, |Join(chunks[..i])|);
    }
    ChunkInvariance(chunks, rules);
    CleanScan(frames, rules);
    PiecesOfFrames(frames);
  }

  lemma {:induction false} PiecesOfFrames(frames: seq<seq<byte>>)
    ensures Frames(AsPieces(frames)) == frames && SkippedBytes(AsPieces(frames)) == 0
  {
    if frames != [] {
      assert AsPieces(frames)[1..] == AsPieces(frames[1..]);
      PiecesOfFrames(frames[1..]);
    }
  }
}
