/** Exactly which streams the decoder reads the same way however the network cuts them. */
module CutIndependence {
  import opened Options
  import opened Bytes
  import opened FrameDecoder
  import opened StreamFraming

  /** The size of the frame the search finds. */
  function FoundSize(buffer: seq<byte>, rules: Rules): nat
    requires Search(buffer, rules, 2).Some?
  {
    var found := Search(buffer, rules, 2).value;
    LittleEndian(buffer[found + 4..found + 6]) + 6
  }

  /** How many bytes the next move depends on: a whole frame, or everything up to the end of the frame resynchronised
      on. */
  function Reach(buffer: seq<byte>, rules: Rules): (n: nat)
    ensures n <= |buffer|
  {
    match HeadOf(buffer, rules.max)
    case Whole(size) => size
    case Partial =>
      (match Search(buffer, rules, 2)
       case None => 0
       case Some(later) => later + FoundSize(buffer, rules))
    case _ => 0
  }

  /** No accepted frame inside `part`, from its third byte on, is complete before the last byte of `part`. */
  predicate Unspoken(part: seq<byte>, rules: Rules) {
    part == [] || Search(part[..|part| - 1], rules, 2).None?
  }

  /**
   * The condition on a stream, found in one pass over it: no frame it hands over, and no gap it resynchronises across
   * together with the frame behind it, holds an accepted frame that was complete earlier.
   */
  predicate Undivided(buffer: seq<byte>, rules: Rules)
    decreases |buffer|
  {
    match NextMove(buffer, rules)
    case Stop => true
    case Take(piece, _) =>
      Unspoken(buffer[..Reach(buffer, rules)], rules) && Undivided(buffer[|piece.bytes|..], rules)
  }

  // ---------- what growing the buffer changes ----------

  lemma HeadGrows(a: seq<byte>, b: seq<byte>, max: nat)
    ensures HeadOf(a, max).Noise? || HeadOf(a, max).BadLength? || HeadOf(a, max).Whole? ==>
              HeadOf(a + b, max) == HeadOf(a, max)
    ensures HeadOf(a, max).Partial? ==>
              HeadOf(a + b, max).Partial? || (HeadOf(a + b, max).Whole? && |a| < HeadOf(a + b, max).size)
  {
    assert |a| >= 2 ==> (PrefixAt(a + b, 0) <==> PrefixAt(a, 0));
    assert |a| >= 6 ==> (a + b)[4..6] == a[4..6];
    if |a| == 1 {
      assert (a + b)[0] == a[0];
    }
  }

  lemma ValidGrows(a: seq<byte>, s: seq<byte>, rules: Rules, c: nat)
    requires |a| <= |s| && s[..|a|] == a && ValidAt(a, rules, c)
    ensures ValidAt(s, rules, c)
  {
    ValidInBeginning(s, |a|, rules, c);
  }

  lemma ValidShrinks(a: seq<byte>, s: seq<byte>, rules: Rules, c: nat)
    requires |a| <= |s| && s[..|a|] == a && ValidAt(s, rules, c)
    requires c + LittleEndian(s[c + 4..c + 6]) + 6 <= |a|
    ensures ValidAt(a, rules, c)
  {
    assert a[c + 4..c + 6] == s[c + 4..c + 6];
    var size := LittleEndian(a[c + 4..c + 6]) + 6;
    assert a[c..c + size] == s[c..c + size];
  }

  lemma FindsAtMost(s: seq<byte>, rules: Rules, c: nat)
    requires c >= 2 && ValidAt(s, rules, c)
    ensures Search(s, rules, 2).Some? && 2 <= Search(s, rules, 2).value <= c
    ensures ValidAt(s, rules, Search(s, rules, 2).value)
  {
    hide Search, ValidAt;
    SearchIsLeast(s, rules, 2);
  }

  lemma FindIsValid(s: seq<byte>, rules: Rules)
    requires Search(s, rules, 2).Some?
    ensures 2 <= Search(s, rules, 2).value && ValidAt(s, rules, Search(s, rules, 2).value)
  {
    hide Search, ValidAt;
    SearchIsLeast(s, rules, 2);
  }

  /** What a shorter buffer already finds, a longer one finds there or further to the left. */
  lemma SearchGrows(a: seq<byte>, s: seq<byte>, rules: Rules)
    requires |a| <= |s| && s[..|a|] == a && Search(a, rules, 2).Some?
    ensures Search(s, rules, 2).Some? && 2 <= Search(s, rules, 2).value <= Search(a, rules, 2).value
  {
    hide Search, ValidAt;
    FindIsValid(a, rules);
    ValidGrows(a, s, rules, Search(a, rules, 2).value);
    FindsAtMost(s, rules, Search(a, rules, 2).value);
  }

  lemma FoundShrinks(a: seq<byte>, s: seq<byte>, rules: Rules)
    requires |a| <= |s| && s[..|a|] == a && Search(s, rules, 2).Some?
    requires Search(s, rules, 2).value + FoundSize(s, rules) <= |a|
    ensures ValidAt(a, rules, Search(s, rules, 2).value)
  {
    hide Search, ValidAt, LittleEndian;
    ValidShrinks(a, s, rules, Search(s, rules, 2).value);
  }

  /** And the same one once the longer buffer's find is complete in the shorter one. */
  lemma SearchKeeps(a: seq<byte>, s: seq<byte>, rules: Rules)
    requires |a| <= |s| && s[..|a|] == a && Search(s, rules, 2).Some?
    requires Search(s, rules, 2).value + FoundSize(s, rules) <= |a|
    ensures Search(a, rules, 2) == Search(s, rules, 2)
  {
    hide *;
    FoundShrinks(a, s, rules);
    FindIsValid(s, rules);
    FindsAtMost(a, rules, Search(s, rules, 2).value);
    SearchGrows(a, s, rules);
  }

  /** An unspoken part stays silent on every proper beginning of it. */
  lemma UnspokenBeginning(part: seq<byte>, rules: Rules, k: nat)
    requires Unspoken(part, rules) && k < |part|
    ensures Search(part[..k], rules, 2).None?
  {
    hide Search;
    var longer := part[..|part| - 1];
    assert longer[..k] == part[..k];
    if Search(part[..k], rules, 2).Some? {
      SearchGrows(part[..k], longer, rules);
    }
  }

  /** A frame found behind a partial one: the longer buffer still waits, and finds the same frame. */
  lemma SettledResync(a: seq<byte>, b: seq<byte>, rules: Rules)
    requires HeadOf(a, rules.max).Partial? && Search(a, rules, 2).Some?
    requires Unspoken((a + b)[..Reach(a + b, rules)], rules)
    ensures HeadOf(a + b, rules.max).Partial? && Search(a + b, rules, 2) == Search(a, rules, 2)
    ensures Reach(a + b, rules) == Reach(a, rules) <= |a|
  {
    hide Search, HeadOf, Unspoken, LittleEndian;
    var s := a + b;
    assert s[..|a|] == a;
    HeadGrows(a, b, rules.max);
    SearchGrows(a, s, rules);
    var reach := Reach(s, rules);
    if |a| < reach {
      assert s[..reach][..|a|] == a;
      UnspokenBeginning(s[..reach], rules, |a|);
      assert false;
    }
    assert HeadOf(s, rules.max).Partial?;
    SearchKeeps(a, s, rules);
    var q := Search(a, rules, 2).value;
    FindIsValid(a, rules);
    assert s[q + 4..q + 6] == a[q + 4..q + 6];
  }

  lemma SameBeginning<T>(a: seq<T>, b: seq<T>, n: nat)
    requires n <= |a|
    ensures (a + b)[..n] == a[..n]
  {
  }

  /** When the longer buffer's move is unspoken, a move already possible on the shorter one is that move. */
  lemma SettledMove(a: seq<byte>, b: seq<byte>, rules: Rules)
    requires NextMove(a, rules).Take? && Unspoken((a + b)[..Reach(a + b, rules)], rules)
    ensures NextMove(a + b, rules) == NextMove(a, rules) && Reach(a + b, rules) == Reach(a, rules)
    ensures (a + b)[..Reach(a + b, rules)] == a[..Reach(a, rules)]
  {
    hide Search, HeadOf, Unspoken, LittleEndian;
    if HeadOf(a, rules.max).Partial? {
      SettledResync(a, b, rules);
      SameBeginning(a, b, Search(a, rules, 2).value);
    } else {
      HeadGrows(a, b, rules.max);
      SameBeginning(a, b, 1);
    }
    SameBeginning(a, b, Reach(a, rules));
  }

  // ---------- the condition suffices ----------

  /** An undivided stream is scanned by scanning its beginning and carrying the rest over; both parts are undivided. */
  lemma {:induction false} UndividedSplits(a: seq<byte>, b: seq<byte>, rules: Rules)
    requires Undivided(a + b, rules)
    ensures var first := Scan(a, rules);
            && Scan(a + b, rules) == After(first.pieces, first.malformed, Scan(first.rest + b, rules))
            && Undivided(a, rules) && Undivided(first.rest + b, rules)
    decreases |a|
  {
    hide Search, NextMove, Reach, Unspoken, Frames, SkippedBytes, Flat, FrameBytes;
    match NextMove(a, rules)
    case Stop =>
      assert [] + Scan(a + b, rules).pieces == Scan(a + b, rules).pieces;
    case Take(piece, bad) =>
      var n := |piece.bytes|;
      BeginningSettles(a, b, rules);
      SettledMove(a, b, rules);
      assert (a + b)[n..] == a[n..] + b;
      UndividedSplits(a[n..], b, rules);
      var first := Scan(a[n..], rules);
      AfterAfter([piece], bad, first.pieces, first.malformed, Scan(first.rest + b, rules));
  }

  /** If the beginning can already move, so can the whole, and its move is the settled one. */
  lemma BeginningSettles(a: seq<byte>, b: seq<byte>, rules: Rules)
    requires NextMove(a, rules).Take? && Undivided(a + b, rules)
    ensures Unspoken((a + b)[..Reach(a + b, rules)], rules)
  {
    hide Search, HeadOf, Unspoken;
    HeadGrows(a, b, rules.max);
    assert (a + b)[..|a|] == a;
    if HeadOf(a, rules.max).Partial? {
      SearchGrows(a, a + b, rules);
    }
    assert NextMove(a + b, rules).Take?;
  }

  /** However an undivided stream is cut, the decoder ends as after a single feed. */
  lemma {:induction false} OnePass(chunks: seq<seq<byte>>, rules: Rules)
    requires Undivided(Join(chunks), rules)
    ensures var once := Scan(Join(chunks), rules);
            Run(Feeds(chunks), rules) == Ledger(once.pieces, once.malformed, once.rest)
    decreases |chunks|
  {
    hide Undivided, Search, NextMove, Frames, SkippedBytes, Flat, FrameBytes;
    if chunks == [] {
      ScanOfShortFront([], rules);
    } else {
      var last := |chunks| - 1;
      var before, chunk := chunks[..last], chunks[last];
      UndividedSplits(Join(before), chunk, rules);
      OnePass(before, rules);
      assert Feeds(chunks)[..last] == Feeds(before);
    }
  }

  // ---------- the condition is necessary ----------

  /** The frames handed over when the stream is cut once, after `k` bytes. */
  function TwoFeeds(s: seq<byte>, k: nat, rules: Rules): seq<seq<byte>>
    requires k <= |s|
  {
    var first := Scan(s[..k], rules);
    Frames(first.pieces) + Frames(Scan(first.rest + s[k..], rules).pieces)
  }

  /** A find is emitted at once, as the first frame. */
  lemma FoundFirst(s: seq<byte>, rules: Rules)
    requires HeadOf(s, rules.max).Partial? && Search(s, rules, 2).Some?
    ensures var frames := Frames(Scan(s, rules).pieces);
            frames != [] && |frames[0]| == FoundSize(s, rules)
  {
    hide Search, HeadOf, Scan, SkippedBytes, Flat, FrameBytes;
    var q := Search(s, rules, 2).value;
    assert ValidAt(s, rules, q);
    var tail := s[q..];
    assert tail[4..6] == s[q + 4..q + 6] && PrefixAt(tail, 0);
    ScanOfWhole(tail, rules);
    ScanTakes(s, rules);
    PiecesAppend([Skipped(s[..q])], Scan(tail, rules).pieces);
    PiecesAppend([Frame(tail[..DeclaredSize(tail)])], Scan(tail[DeclaredSize(tail)..], rules).pieces);
  }

  lemma ScanTakes(s: seq<byte>, rules: Rules)
    requires NextMove(s, rules).Take?
    ensures var m := NextMove(s, rules);
            Scan(s, rules) == After([m.piece], m.bad, Scan(s[|m.piece.bytes|..], rules))
  {
    hide NextMove;
  }

  /** One byte before its reach, a spoken move still waits for the outer frame and finds an inner one. */
  lemma SpokenBeginning(s: seq<byte>, rules: Rules)
    requires NextMove(s, rules).Take? && !Unspoken(s[..Reach(s, rules)], rules)
    ensures Reach(s, rules) >= 11
    ensures var a := s[..Reach(s, rules) - 1];
            HeadOf(a, rules.max).Partial? && Search(a, rules, 2).Some?
            && Search(a, rules, 2).value + FoundSize(a, rules) <= |a|
  {
    var a := s[..Reach(s, rules) - 1];
    assert s[..Reach(s, rules)][..|a|] == a;
    FoundFits(a, rules);
    hide Search, LittleEndian, FoundSize;
    assert PrefixAt(a, 0) && a[4..6] == s[4..6];
  }

  lemma FoundFits(a: seq<byte>, rules: Rules)
    requires Search(a, rules, 2).Some?
    ensures |a| >= 10 && Search(a, rules, 2).value + FoundSize(a, rules) <= |a|
  {
    FindIsValid(a, rules);
    hide Search;
  }

  lemma WholeFirst(s: seq<byte>, rules: Rules)
    requires HeadOf(s, rules.max).Whole?
    ensures Frames(Scan(s, rules).pieces) != []
    ensures |Frames(Scan(s, rules).pieces)[0]| == HeadOf(s, rules.max).size
  {
    hide Search, Scan, SkippedBytes, Flat, FrameBytes;
    ScanTakes(s, rules);
    var n := HeadOf(s, rules.max).size;
    PiecesAppend([Frame(s[..n])], Scan(s[n..], rules).pieces);
    assert Frames([Frame(s[..n])]) == [s[..n]];
  }

  /** Fed at once, the stream's first frame is longer than that inner one. */
  lemma FirstFrameLonger(s: seq<byte>, rules: Rules)
    requires NextMove(s, rules).Take? && !Unspoken(s[..Reach(s, rules)], rules)
    ensures Reach(s, rules) >= 11
    ensures var a := s[..Reach(s, rules) - 1];
            var frames := Frames(Scan(s, rules).pieces);
            Search(a, rules, 2).Some? && frames != [] && |frames[0]| > FoundSize(a, rules)
  {
    hide Search, Scan, ValidAt, HeadOf, Frames;
    SpokenBeginning(s, rules);
    var a := s[..Reach(s, rules) - 1];
    var c := Search(a, rules, 2).value;
    if HeadOf(s, rules.max).Whole? {
      WholeFirst(s, rules);
    } else {
      SearchGrows(a, s, rules);
      FoundFirst(s, rules);
    }
  }

  /** A spoken move: cut one byte before its reach, the decoder hands over a shorter frame first. */
  lemma SpokenDivides(s: seq<byte>, rules: Rules)
    requires NextMove(s, rules).Take? && !Unspoken(s[..Reach(s, rules)], rules)
    ensures Reach(s, rules) >= 11 && TwoFeeds(s, Reach(s, rules) - 1, rules) != Frames(Scan(s, rules).pieces)
  {
    hide Search, Scan, ValidAt, HeadOf, Frames, Reach, NextMove, Unspoken, FoundSize;
    SpokenBeginning(s, rules);
    FirstFrameLonger(s, rules);
    var a := s[..Reach(s, rules) - 1];
    FoundFirst(a, rules);
    assert Frames(Scan(a, rules).pieces)[0] == TwoFeeds(s, Reach(s, rules) - 1, rules)[0];
  }

  /** A settled move is made on every beginning that contains its reach, or ten bytes when it looks at none. */
  lemma SettledOnBeginning(s: seq<byte>, rules: Rules, k: nat)
    requires NextMove(s, rules).Take? && Reach(s, rules) <= k <= |s| && k >= 10
    ensures NextMove(s[..k], rules) == NextMove(s, rules)
  {
    hide Search, LittleEndian, FoundSize;
    var a := s[..k];
    assert a[4..6] == s[4..6] && (PrefixAt(a, 0) <==> PrefixAt(s, 0));
    if HeadOf(s, rules.max).Partial? {
      SearchKeeps(a, s, rules);
      var q := Search(s, rules, 2).value;
      assert s[..q] == a[..q];
    }
    assert HeadOf(s, rules.max).Whole? ==> s[..HeadOf(s, rules.max).size] == a[..HeadOf(s, rules.max).size];
    assert s[..1] == a[..1];
  }

  lemma FoundHead(s: seq<byte>, rules: Rules)
    requires HeadOf(s, rules.max).Partial? && Search(s, rules, 2).Some?
    ensures var q := Search(s, rules, 2).value;
            q >= 2 && HeadOf(s[q..], rules.max).Whole? && Reach(s[q..], rules) == Reach(s, rules) - q >= 1
  {
    hide Search, LittleEndian;
    var q := Search(s, rules, 2).value;
    FindIsValid(s, rules);
    var tail := s[q..];
    assert tail[4..6] == s[q + 4..q + 6] && PrefixAt(tail, 0);
  }

  /** After a settled resynchronisation the frame found is the next move, and it is settled too. */
  lemma FoundIsSettled(s: seq<byte>, rules: Rules)
    requires HeadOf(s, rules.max).Partial? && Search(s, rules, 2).Some? && Unspoken(s[..Reach(s, rules)], rules)
    ensures var q := Search(s, rules, 2).value;
            HeadOf(s[q..], rules.max).Whole? && Reach(s[q..], rules) == Reach(s, rules) - q
            && Unspoken(s[q..][..Reach(s[q..], rules)], rules)
  {
    hide Search, HeadOf, Reach, LittleEndian, ValidAt;
    FoundHead(s, rules);
    var q := Search(s, rules, 2).value;
    var n := Reach(s[q..], rules);
    var inner, outer := s[q..][..n][..n - 1], s[..q + n][..q + n - 1];
    NestedSlices(s, q, n);
    if Search(inner, rules, 2).Some? {
      var c := Search(inner, rules, 2).value;
      FindIsValid(inner, rules);
      ValidInside(outer, q, rules, c);
      FindsAtMost(outer, rules, q + c);
    }
  }

  lemma ValidInside(s: seq<byte>, q: nat, rules: Rules, c: nat)
    requires q <= |s| && ValidAt(s[q..], rules, c)
    ensures ValidAt(s, rules, q + c)
  {
    assert s[q..][c + 4..c + 6] == s[q + c + 4..q + c + 6];
    var size := LittleEndian(s[q + c + 4..q + c + 6]) + 6;
    assert s[q..][c..c + size] == s[q + c..q + c + size];
  }

  predicate Settled(s: seq<byte>, rules: Rules) {
    NextMove(s, rules).Take? && Unspoken(s[..Reach(s, rules)], rules)
  }

  /** A divided stream has a place where a single cut makes the decoder hand over different frames. */
  lemma {:induction false} DividedAt(s: seq<byte>, rules: Rules) returns (k: nat)
    requires !Undivided(s, rules)
    ensures 10 <= k <= |s| && TwoFeeds(s, k, rules) != Frames(Scan(s, rules).pieces)
    ensures Settled(s, rules) ==> k >= |NextMove(s, rules).piece.bytes|
    decreases |s|
  {
    hide Search, HeadOf, Scan, Frames, Unspoken, Reach, ValidAt;
    if !Settled(s, rules) {
      SpokenDivides(s, rules);
      k := Reach(s, rules) - 1;
    } else {
      var m := NextMove(s, rules);
      var n := |m.piece.bytes|;
      var later := DividedAt(s[n..], rules);
      k := n + later;
      ReachedBefore(s, rules, later);
      SettledOnBeginning(s, rules, k);
      CarriesOn(s, rules, later);
    }
  }

  /** The later cut lies behind everything this settled move looks at. */
  lemma ReachedBefore(s: seq<byte>, rules: Rules, later: nat)
    requires Settled(s, rules) && later <= |s| - |NextMove(s, rules).piece.bytes|
    requires var tail := s[|NextMove(s, rules).piece.bytes|..];
             Settled(tail, rules) ==> later >= |NextMove(tail, rules).piece.bytes|
    ensures Reach(s, rules) <= |NextMove(s, rules).piece.bytes| + later
  {
    hide Search, ValidAt;
    if HeadOf(s, rules.max).Partial? {
      FoundIsSettled(s, rules);
    }
  }

  /** A difference behind a move taken either way is a difference of the whole. */
  lemma CarriesOn(s: seq<byte>, rules: Rules, later: nat)
    requires NextMove(s, rules).Take?
    requires var n := |NextMove(s, rules).piece.bytes|;
             && later <= |s| - n && NextMove(s[..n + later], rules) == NextMove(s, rules)
             && TwoFeeds(s[n..], later, rules) != Frames(Scan(s[n..], rules).pieces)
    ensures TwoFeeds(s, |NextMove(s, rules).piece.bytes| + later, rules) != Frames(Scan(s, rules).pieces)
  {
    hide Search, Scan, NextMove, SkippedBytes, Flat, FrameBytes, Frames;
    var m := NextMove(s, rules);
    var n := |m.piece.bytes|;
    var a := s[..n + later];
    var tail := s[n..];
    assert a[n..] == tail[..later] && s[n + later..] == tail[later..];
    ScanTakes(s, rules);
    ScanTakes(a, rules);
    var first := Scan(tail[..later], rules);
    var whole := Scan(tail, rules);
    PiecesAppend([m.piece], first.pieces);
    PiecesAppend([m.piece], whole.pieces);
    var head, rest := Frames([m.piece]), Frames(Scan(first.rest + tail[later..], rules).pieces);
    assert TwoFeeds(s, n + later, rules) == head + Frames(first.pieces) + rest;
    assert head + Frames(first.pieces) + rest == head + (Frames(first.pieces) + rest);
    assert (head + TwoFeeds(tail, later, rules))[|head|..] == TwoFeeds(tail, later, rules);
    assert (head + Frames(whole.pieces))[|head|..] == Frames(whole.pieces);
  }

  // ---------- the exact law ----------

  ghost predicate SameHoweverCut(s: seq<byte>, rules: Rules) {
    forall chunks: seq<seq<byte>>, others: seq<seq<byte>> | Join(chunks) == s && Join(others) == s ::
      Run(Feeds(chunks), rules) == Run(Feeds(others), rules)
  }

  ghost predicate SameFramesHoweverCut(s: seq<byte>, rules: Rules) {
    forall chunks: seq<seq<byte>>, others: seq<seq<byte>> | Join(chunks) == s && Join(others) == s ::
      Frames(Run(Feeds(chunks), rules).pieces) == Frames(Run(Feeds(others), rules).pieces)
  }

  lemma FedOnce(s: seq<byte>, rules: Rules)
    ensures Join([s]) == s && Run(Feeds([s]), rules).pieces == Scan(s, rules).pieces
  {
    hide Scan;
    var one: seq<seq<byte>> := [s];
    var none: seq<seq<byte>> := [];
    assert one[..0] == none && Feeds(one) == [Feed(s)] && Feeds(one)[..0] == [];
    assert Join(none) == [] && Run([], rules) == Ledger([], 0, []);
    assert [] + s == s;
  }

  lemma FedTwice(s: seq<byte>, k: nat, rules: Rules)
    requires k <= |s|
    ensures Join([s[..k], s[k..]]) == s
    ensures Frames(Run(Feeds([s[..k], s[k..]]), rules).pieces) == TwoFeeds(s, k, rules)
  {
    hide Scan, SkippedBytes, Flat, FrameBytes;
    var a, b := s[..k], s[k..];
    var ops := Feeds([a, b]);
    var one: seq<seq<byte>> := [a];
    var none: seq<seq<byte>> := [];
    assert [a, b][..1] == one && one[..0] == none && ops[..1] == [Feed(a)] && ops[..1][..0] == [];
    assert Join(none) == [] && Join(one) == a && a + b == s;
    assert Run([], rules) == Ledger([], 0, []) && [] + a == a;
    var first := Scan(a, rules);
    assert Run(ops[..1], rules) == Ledger(first.pieces, first.malformed, first.rest);
    PiecesAppend(first.pieces, Scan(first.rest + b, rules).pieces);
  }

  /**
   * All ways of cutting a stream end in the same decoder state with the same output if and only if the stream is
   * undivided; and a divided stream is told apart by the frames alone.
   */
  lemma CutIndependenceExactly(s: seq<byte>, rules: Rules)
    ensures SameHoweverCut(s, rules) <==> Undivided(s, rules)
    ensures SameFramesHoweverCut(s, rules) <==> Undivided(s, rules)
  {
    hide Scan, Frames, Undivided, Join, Feeds, Run, TwoFeeds;
    if Undivided(s, rules) {
      forall chunks: seq<seq<byte>> | Join(chunks) == s
        ensures Run(Feeds(chunks), rules)
             == Ledger(Scan(s, rules).pieces, Scan(s, rules).malformed, Scan(s, rules).rest)
      {
        OnePass(chunks, rules);
      }
    } else {
      var k := DividedAt(s, rules);
      FedOnce(s, rules);
      FedTwice(s, k, rules);
      assert !SameFramesHoweverCut(s, rules);
    }
  }

  /** So a stream with an acceptable frame inside a larger one is divided. */
  lemma EmbeddedDivides(f: seq<byte>, pad: seq<byte>, s: seq<byte>, rules: Rules)
    requires WellFormed(f, rules.max) && rules.accept(f) && pad != [] && rules.max <= MAX_PACKET_SIZE
    requires 6 + |f| + |pad| <= rules.max && s == Envelope(f, |pad|) + f + pad
    ensures !Undivided(s, rules)
  {
    hide Undivided, Scan, Frames, Run, Join, Feeds, WellFormed, TwoFeeds;
    var k := 6 + |f|;
    assert |f| < |s|;
    hide Envelope;
    ChunkingCanMatter(f, pad, s, rules);
    CutIndependenceExactly(s, rules);
    FedOnce(s, rules);
    FedTwice(s, k, rules);
    BeginsWith(f, s, k, rules);
    assert [s][0] != f;
  }

  lemma BeginsWith(f: seq<byte>, s: seq<byte>, k: nat, rules: Rules)
    requires k <= |s| && Prefix([f], Frames(Scan(s[..k], rules).pieces))
    ensures TwoFeeds(s, k, rules) != [] && TwoFeeds(s, k, rules)[0] == f
  {
    hide Scan, Frames;
    assert Frames(Scan(s[..k], rules).pieces)[..1][0] == f;
  }

  /**
   * Silence is stronger: behind a header that promises more than comes, one complete frame makes the search speak
   * up, and still no cut can be told from another.
   */
  lemma SpeakingUpCanBeHarmless(f: seq<byte>, padding: nat, rules: Rules)
    requires WellFormed(f, rules.max) && rules.accept(f) && NothingEmbedded(f, rules) && padding > 0
    requires rules.max <= MAX_PACKET_SIZE && 6 + |f| + padding <= rules.max
    ensures var s := Envelope(f, padding) + f; Undivided(s, rules) && !Quiet(s, rules)
  {
    var s := Envelope(f, padding) + f;
    assert s[6..] == f && s[4..6] == TwoBytes(|f| + padding) && PrefixAt(s, 0);
    InnerFrameFound(f, s, rules);
    hide Search, Scan;
    assert HeadOf(s, rules.max).Partial?;
    WaitingFindsNothing(s, rules.max, 2);
    ScanOfPartial(s, Waiting(rules.max));
    EnvelopeReach(f, s, rules);
    assert s[..|s|] == s;
    EnvelopeUnspoken(f, s, rules);
    assert NextMove(s, rules) == Take(Skipped(s[..6]), 1);
    FrameAloneUndivided(f, rules);
  }

  /** The frame inside ends where the stream does. */
  lemma EnvelopeReach(f: seq<byte>, s: seq<byte>, rules: Rules)
    requires WellFormed(f, rules.max) && |s| == 6 + |f| && s[6..] == f
    requires HeadOf(s, rules.max).Partial? && Search(s, rules, 2) == Some(6)
    ensures Reach(s, rules) == |s|
  {
    hide Search, HeadOf;
    assert s[10..12] == f[4..6];
  }

  /** The frame inside is found only with its last byte. */
  lemma EnvelopeUnspoken(f: seq<byte>, s: seq<byte>, rules: Rules)
    requires WellFormed(f, rules.max) && NothingEmbedded(f, rules)
    requires |s| == 6 + |f| && s[6..] == f && Search(s, rules, 2) == Some(6)
    ensures Unspoken(s, rules)
  {
    hide Search, ValidAt, WellFormed, NothingEmbedded;
    var part := s[..|s| - 1];
    if Search(part, rules, 2).Some? {
      var c := Search(part, rules, 2).value;
      SearchGrows(part, s, rules);
      FindIsValid(part, rules);
      InsideEnvelope(f, s, part, rules, c);
      EmbeddedNowhere(f, rules, c - 6);
      assert false;
    }
  }

  lemma EmbeddedNowhere(f: seq<byte>, rules: Rules, c: nat)
    requires NothingEmbedded(f, rules) && c >= 2
    ensures !ValidAt(f, rules, c)
  {
  }

  lemma InsideEnvelope(f: seq<byte>, s: seq<byte>, part: seq<byte>, rules: Rules, c: nat)
    requires WellFormed(f, rules.max) && |s| == 6 + |f| && s[6..] == f
    requires part == s[..|s| - 1] && ValidAt(part, rules, c) && c >= 6
    ensures c >= 8 && ValidAt(f, rules, c - 6)
  {
    ValidGrows(part, s, rules, c);
    assert part[c + 4..c + 6] == s[c + 4..c + 6];
    assert s[6] == f[0] && s[7] == f[1];
    hide WellFormed;
    ValidMoved(s, 6, f, rules, c);
  }

  /** What is valid somewhere in the stream is valid in the part of it that starts before. */
  lemma ValidMoved(s: seq<byte>, from: nat, f: seq<byte>, rules: Rules, c: nat)
    requires from <= |s| && s[from..] == f && ValidAt(s, rules, c) && c >= from
    ensures ValidAt(f, rules, c - from)
  {
    hide LittleEndian;
    var size := LittleEndian(s[c + 4..c + 6]) + 6;
    assert f[c - from + 4..c - from + 6] == s[c + 4..c + 6];
    assert f[c - from..c - from + size] == s[c..c + size];
  }

  lemma FrameAloneUndivided(f: seq<byte>, rules: Rules)
    requires WellFormed(f, rules.max) && NothingEmbedded(f, rules)
    ensures Undivided(f, rules)
  {
    hide Search;
    assert HeadOf(f, rules.max) == Whole(|f|) && f[..|f|] == f && f[|f|..] == [];
    ShorterIsSilent(f, |f| - 1, rules);
    assert NextMove([], rules) == Stop;
  }
}
