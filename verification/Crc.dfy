/** CRC-16/Modbus (Modbus over Serial Line V1.02, section 6.2.2) as the dongle protocol uses it. */
module Crc {
  import opened Bytes

  // ---------- specification: one bit, one byte, one message ----------

  /** One shift of the register: divide by x, feeding the polynomial 0xA001 back when a bit falls out. */
  function Bit(c: bv16): bv16 {
    (c >> 1) ^ ((c & 1) << 15) ^ ((c & 1) << 13) ^ (c & 1)
  }

  function Shifts(c: bv16, k: nat): bv16 {
    if k == 0 then c else Bit(Shifts(c, k - 1))
  }

  const BITS_PER_BYTE: nat := 8

  function Eight(c: bv16): bv16 {
    Shifts(c, BITS_PER_BYTE)
  }

  function Absorb(c: bv16, b: bv8): bv16 {
    Eight(c ^ (b as bv16))
  }

  function Run(c: bv16, data: seq<bv8>): bv16
    decreases |data|
  {
    if data == [] then c else Run(Absorb(c, data[0]), data[1..])
  }

  function Octets(data: seq<byte>): (o: seq<bv8>)
    ensures |o| == |data|
  {
    seq(|data|, i requires 0 <= i < |data| => data[i] as bv8)
  }

  function Crc16(data: seq<byte>): (n: nat)
    ensures n < 0x1_0000
  {
    Value(Run(0xFFFF, Octets(data)))
  }

  function Value(c: bv16): (n: nat)
    ensures n < 0x1_0000
  {
    c as int
  }

  // ---------- the loops of the source, on an integer that could be wider ----------

  /** The body of the inner loop. */
  function Branch(crc: bv32): bv32 {
    if (crc & 1) != 0 then (crc >> 1) ^ 0xA001 else crc >> 1
  }

  ghost function WideShifts(crc: bv32, k: nat): bv32 {
    if k == 0 then crc else Branch(WideShifts(crc, k - 1))
  }

  ghost function WideAbsorb(crc: bv32, b: bv8): bv32 {
    WideShifts(crc ^ (b as bv32), BITS_PER_BYTE)
  }

  ghost function WideRun(crc: bv32, data: seq<bv8>): bv32
    decreases |data|
  {
    if data == [] then crc else WideRun(WideAbsorb(crc, data[0]), data[1..])
  }

  function Low16(crc: bv32): bv16 {
    (crc & 0xFFFF) as bv16
  }

  method ComputeCrc(data: seq<byte>) returns (result: nat)
    ensures result == Crc16(data)
  {
    var crc: bv32 := 0xFFFF;
    ghost var octets := Octets(data);
    assert octets[0..] == octets;
    for p := 0 to |data|
      invariant WideRun(crc, octets[p..]) == WideRun(0xFFFF, octets)
    {
      assert octets[p..][0] == data[p] as bv8 && octets[p..][1..] == octets[p + 1..];
      crc := crc ^ ((data[p] as bv8) as bv32);
      ghost var mixed := crc;
      for k := 0 to 8
        invariant crc == WideShifts(mixed, k)
      {
        crc := Branch(crc);
      }
    }
    assert octets[|data|..] == [];
    RunStaysNarrow(0xFFFF, 0xFFFF, octets, crc, Run(0xFFFF, octets));
    MaskIsIdentity(Run(0xFFFF, octets));
    result := Value(Low16(crc));
  }

  // The lemmas below name every intermediate value: equalities between named registers are cheap,
  // equalities between nested bit-vector expressions are not.

  lemma MixStaysNarrow(w: bv32, c: bv16, b: bv8)
    requires w == c as bv32
    ensures w ^ (b as bv32) == (c ^ (b as bv16)) as bv32
  {
  }

  lemma BranchStaysNarrow(w: bv32, c: bv16)
    requires w == c as bv32
    ensures Branch(w) == Bit(c) as bv32
  {
    if (w & 1) != 0 {
      assert w & 1 == 1;
    }
  }

  lemma {:induction false} ShiftsStayNarrow(w: bv32, c: bv16, k: nat, wk: bv32, ck: bv16)
    requires w == c as bv32
    requires wk == WideShifts(w, k) && ck == Shifts(c, k)
    ensures wk == ck as bv32
  {
    if k > 0 {
      var wide, narrow := WideShifts(w, k - 1), Shifts(c, k - 1);
      ShiftsStayNarrow(w, c, k - 1, wide, narrow);
      BranchStaysNarrow(wide, narrow);
    }
  }

  lemma MixedShiftsStayNarrow(w: bv32, c: bv16, b: bv8, k: nat)
    requires w == c as bv32
    ensures WideShifts(w ^ (b as bv32), k) == Shifts(c ^ (b as bv16), k) as bv32
  {
    var wide, narrow := w ^ (b as bv32), c ^ (b as bv16);
    MixStaysNarrow(w, c, b);
    ShiftsStayNarrow(wide, narrow, k, WideShifts(wide, k), Shifts(narrow, k));
  }

  lemma AbsorbStaysNarrow(w: bv32, c: bv16, b: bv8)
    requires w == c as bv32
    ensures WideAbsorb(w, b) == Absorb(c, b) as bv32
  {
    MixedShiftsStayNarrow(w, c, b, BITS_PER_BYTE);
  }

  /** The state never leaves sixteen bits, so the final mask of the source changes nothing. */
  lemma {:induction false} RunStaysNarrow(w: bv32, c: bv16, data: seq<bv8>, wide: bv32, narrow: bv16)
    requires w == c as bv32
    requires wide == WideRun(w, data) && narrow == Run(c, data)
    ensures wide == narrow as bv32
    decreases |data|
  {
    if data != [] {
      var nextWide, next := WideAbsorb(w, data[0]), Absorb(c, data[0]);
      AbsorbStaysNarrow(w, c, data[0]);
      RunStaysNarrow(nextWide, next, data[1..], wide, narrow);
    }
  }

  lemma MaskIsIdentity(c: bv16)
    ensures Low16(c as bv32) == c
  {
  }

  // ---------- algebra of the register ----------

  lemma BitLinear(a: bv16, b: bv16)
    ensures Bit(a ^ b) == Bit(a) ^ Bit(b)
  {
  }

  /** Exclusive or under a name, so that an induction need not look at bits. */
  function Xor(a: bv16, b: bv16): bv16 {
    a ^ b
  }

  lemma BitOfXor(a: bv16, b: bv16)
    ensures Bit(Xor(a, b)) == Xor(Bit(a), Bit(b))
  {
    BitLinear(a, b);
  }

  lemma {:induction false} ShiftsOfXor(a: bv16, b: bv16, k: nat)
    ensures Shifts(Xor(a, b), k) == Xor(Shifts(a, k), Shifts(b, k))
  {
    hide Xor, Bit;
    if k > 0 {
      ShiftsOfXor(a, b, k - 1);
      BitOfXor(Shifts(a, k - 1), Shifts(b, k - 1));
    }
  }

  lemma ShiftsLinear(a: bv16, b: bv16, k: nat)
    ensures Shifts(a ^ b, k) == Shifts(a, k) ^ Shifts(b, k)
  {
    hide Shifts;
    ShiftsOfXor(a, b, k);
  }

  /** The eight shifts written out, for the facts the bit-vector solver settles on its own. */
  function Unrolled(c: bv16): bv16 {
    Bit(Bit(Bit(Bit(Bit(Bit(Bit(Bit(c))))))))
  }

  lemma EightUnrolled(c: bv16)
    ensures Eight(c) == Unrolled(c)
  {
    assert Shifts(c, 1) == Bit(c);
    assert Shifts(c, 2) == Bit(Shifts(c, 1));
    assert Shifts(c, 3) == Bit(Shifts(c, 2));
    assert Shifts(c, 4) == Bit(Shifts(c, 3));
    assert Shifts(c, 5) == Bit(Shifts(c, 4));
    assert Shifts(c, 6) == Bit(Shifts(c, 5));
    assert Shifts(c, 7) == Bit(Shifts(c, 6));
  }

  lemma EightVanishesOnlyAtZero(a: bv16)
    ensures Eight(a) == 0 <==> a == 0
  {
    EightUnrolled(a);
  }

  lemma Cancel(a: bv16, b: bv16)
    ensures (a ^ b) ^ b == a
    ensures a ^ b == 0 <==> a == b
  {
  }

  lemma EightInjective(a: bv16, b: bv16)
    requires Eight(a) == Eight(b)
    ensures a == b
  {
    ShiftsLinear(a, b, BITS_PER_BYTE);
    EightVanishesOnlyAtZero(a ^ b);
    Cancel(a, b);
    Cancel(Eight(a), Eight(b));
  }

  lemma XorShuffle(a: bv16, b: bv16, x: bv8, y: bv8)
    ensures (a ^ b) ^ ((x ^ y) as bv16) == (a ^ (x as bv16)) ^ (b ^ (y as bv16))
  {
  }

  lemma ShiftsOfPairs(a: bv16, b: bv16, x: bv8, y: bv8, k: nat)
    ensures Shifts((a ^ b) ^ ((x ^ y) as bv16), k) == Shifts(a ^ (x as bv16), k) ^ Shifts(b ^ (y as bv16), k)
  {
    XorShuffle(a, b, x, y);
    ShiftsLinear(a ^ (x as bv16), b ^ (y as bv16), k);
  }

  lemma AbsorbLinear(a: bv16, b: bv16, x: bv8, y: bv8)
    ensures Absorb(a ^ b, x ^ y) == Absorb(a, x) ^ Absorb(b, y)
  {
    ShiftsOfPairs(a, b, x, y, BITS_PER_BYTE);
  }

  /**
   * `d0 d1 d2` are the changed bits of three neighbouring bytes, sent low bit first: with the `k` low bits
   * of the first byte and all but the `k` low bits of the last one unchanged, they span at most sixteen bits.
   */
  predicate Burst(d0: bv8, d1: bv8, d2: bv8, k: bv8) {
    k <= 8 && d0 & ((1 << k) - 1) == 0 && d2 >> k == 0 && (d0 != 0 || d1 != 0 || d2 != 0)
  }

  lemma UnrolledBurst(d0: bv8, d1: bv8, d2: bv8, k: bv8, s1: bv16, s2: bv16)
    requires Burst(d0, d1, d2, k)
    requires s1 == Unrolled(0 ^ (d0 as bv16)) && s2 == Unrolled(s1 ^ (d1 as bv16))
    ensures Unrolled(s2 ^ (d2 as bv16)) != 0
  {
  }

  lemma AbsorbUnrolled(c: bv16, b: bv8)
    ensures Absorb(c, b) == Unrolled(c ^ (b as bv16))
  {
    EightUnrolled(c ^ (b as bv16));
  }

  /** A difference confined to sixteen consecutive bits always leaves a trace in the register. */
  lemma BurstLeavesTrace(d0: bv8, d1: bv8, d2: bv8, k: bv8)
    requires Burst(d0, d1, d2, k)
    ensures Absorb(Absorb(Absorb(0, d0), d1), d2) != 0
  {
    var s1 := Absorb(0, d0);
    var s2 := Absorb(s1, d1);
    AbsorbUnrolled(0, d0);
    AbsorbUnrolled(s1, d1);
    AbsorbUnrolled(s2, d2);
    UnrolledBurst(d0, d1, d2, k, s1, s2);
  }

  lemma SpelledWordShiftsOut(x: bv8, y: bv8, w: bv16)
    requires w == (x as bv16) | ((y as bv16) << 8)
    ensures Absorb(w, x) == y as bv16
  {
    AbsorbUnrolled(w, x);
  }

  /** Feeding two bytes cancels the register exactly when they spell it, low byte first. */
  lemma TwoBytesCancel(c: bv16, x: bv8, y: bv8, w: bv16)
    requires w == (x as bv16) | ((y as bv16) << 8)
    ensures Absorb(Absorb(c, x), y) == 0 <==> c == w
  {
    SpelledWordShiftsOut(x, y, w);
    AbsorbVanishes(Absorb(c, x), y);
    AbsorbInjective(c, w, x);
  }

  lemma AbsorbVanishes(c: bv16, b: bv8)
    ensures Absorb(c, b) == 0 <==> c == b as bv16
  {
    EightVanishesOnlyAtZero(c ^ (b as bv16));
    Cancel(c, b as bv16);
  }

  lemma AbsorbInjective(c: bv16, d: bv16, b: bv8)
    ensures Absorb(c, b) == Absorb(d, b) <==> c == d
  {
    if Absorb(c, b) == Absorb(d, b) {
      EightInjective(c ^ (b as bv16), d ^ (b as bv16));
      Cancel(c, b as bv16);
      Cancel(d, b as bv16);
    }
  }

  // ---------- messages that differ ----------

  lemma {:induction false} RunAppend(c: bv16, s: seq<bv8>, t: seq<bv8>)
    ensures Run(c, s + t) == Run(Run(c, s), t)
    decreases |s|
  {
    if s == [] {
      assert s + t == t;
    } else {
      assert (s + t)[0] == s[0] && (s + t)[1..] == s[1..] + t;
      RunAppend(Absorb(c, s[0]), s[1..], t);
    }
  }

  lemma {:induction false} RunInjective(a: bv16, b: bv16, data: seq<bv8>)
    ensures Run(a, data) == Run(b, data) <==> a == b
    decreases |data|
  {
    if data != [] {
      AbsorbInjective(a, b, data[0]);
      RunInjective(Absorb(a, data[0]), Absorb(b, data[0]), data[1..]);
    }
  }

  // How far apart two registers end up depends only on how far apart they and their bytes were.

  lemma TwoStepsLinear(a: bv16, b: bv16, x0: bv8, x1: bv8, y0: bv8, y1: bv8)
    ensures Absorb(Absorb(a, x0), x1) ^ Absorb(Absorb(b, y0), y1) == Absorb(Absorb(a ^ b, x0 ^ y0), x1 ^ y1)
  {
    AbsorbLinear(a, b, x0, y0);
    AbsorbLinear(Absorb(a, x0), Absorb(b, y0), x1, y1);
  }

  lemma ThreeStepsLinear(a: bv16, b: bv16, x0: bv8, x1: bv8, x2: bv8, y0: bv8, y1: bv8, y2: bv8)
    ensures Absorb(Absorb(Absorb(a, x0), x1), x2) ^ Absorb(Absorb(Absorb(b, y0), y1), y2)
         == Absorb(Absorb(Absorb(a ^ b, x0 ^ y0), x1 ^ y1), x2 ^ y2)
  {
    TwoStepsLinear(a, b, x0, x1, y0, y1);
    AbsorbLinear(Absorb(Absorb(a, x0), x1), Absorb(Absorb(b, y0), y1), x2, y2);
  }

  /** Three bytes with a burst between them lead one register to two different ones. */
  lemma BurstSeparates(c: bv16, x0: bv8, x1: bv8, x2: bv8, y0: bv8, y1: bv8, y2: bv8, k: bv8, p: bv16, q: bv16)
    requires Burst(x0 ^ y0, x1 ^ y1, x2 ^ y2, k)
    requires p == Absorb(Absorb(Absorb(c, x0), x1), x2)
    requires q == Absorb(Absorb(Absorb(c, y0), y1), y2)
    ensures p != q
  {
    Cancel(c, c);
    ThreeStepsLinear(c, c, x0, x1, x2, y0, y1, y2);
    BurstLeavesTrace(x0 ^ y0, x1 ^ y1, x2 ^ y2, k);
    Cancel(p, q);
  }

  /** The byte at `i`, or zero behind the end: padding both messages alike hides no difference. */
  function At(s: seq<bv8>, i: nat): bv8 {
    if i < |s| then s[i] else 0
  }

  /** The messages agree outside three neighbouring bytes, where they differ by a burst of sixteen bits at most. */
  ghost predicate DifferByBurst(s: seq<byte>, t: seq<byte>, i: nat, k: bv8) {
    && |s| == |t|
    && (forall j :: 0 <= j < |s| && !(i <= j < i + 3) ==> s[j] == t[j])
    && var x, y := Octets(s), Octets(t);
       Burst(At(x, i) ^ At(y, i), At(x, i + 1) ^ At(y, i + 1), At(x, i + 2) ^ At(y, i + 2), k)
  }

  lemma RunStep(c: bv16, s: seq<bv8>, i: nat)
    requires i < |s|
    ensures Run(c, s[i..]) == Run(Absorb(c, s[i]), s[i + 1..])
  {
    assert s[i..][1..] == s[i + 1..];
  }

  lemma RunOfWindow(c: bv16, s: seq<bv8>, i: nat)
    requires i + 3 <= |s|
    ensures Run(c, s) == Run(Absorb(Absorb(Absorb(Run(c, s[..i]), s[i]), s[i + 1]), s[i + 2]), s[i + 3..])
  {
    assert s == s[..i] + s[i..];
    RunAppend(c, s[..i], s[i..]);
    var start := Run(c, s[..i]);
    RunStep(start, s, i);
    RunStep(Absorb(start, s[i]), s, i + 1);
    RunStep(Absorb(Absorb(start, s[i]), s[i + 1]), s, i + 2);
  }

  lemma BurstInOctets(c: bv16, s: seq<bv8>, t: seq<bv8>, i: nat, k: bv8)
    requires |s| == |t| && i + 3 <= |s|
    requires s[..i] == t[..i] && s[i + 3..] == t[i + 3..]
    requires Burst(s[i] ^ t[i], s[i + 1] ^ t[i + 1], s[i + 2] ^ t[i + 2], k)
    ensures Run(c, s) != Run(c, t)
  {
    hide *;
    RunOfWindow(c, s, i);
    RunOfWindow(c, t, i);
    var start := Run(c, s[..i]);
    var p := Absorb(Absorb(Absorb(start, s[i]), s[i + 1]), s[i + 2]);
    var q := Absorb(Absorb(Absorb(start, t[i]), t[i + 1]), t[i + 2]);
    BurstSeparates(start, s[i], s[i + 1], s[i + 2], t[i], t[i + 1], t[i + 2], k, p, q);
    RunInjective(p, q, s[i + 3..]);
  }

  lemma ValueInjective(a: bv16, b: bv16)
    ensures Value(a) == Value(b) <==> a == b
  {
    assert (a as int) as bv16 == a;
    assert (b as int) as bv16 == b;
  }

  lemma Increment(b: bv8)
    requires b < 255
    ensures (b + 1) as int == b as int + 1
  {
  }

  lemma BackAndForth(b: bv8)
    ensures (b as int) as bv8 == b
  {
  }

  /** Counting up to `x` finds the octet that stands for it. */
  lemma OctetRoundTrip(x: byte)
    ensures (x as bv8) as int == x
  {
    var b: bv8 := 0;
    for n := 0 to x
      invariant b as int == n
    {
      Increment(b);
      b := b + 1;
    }
    BackAndForth(b);
  }

  lemma OctetInjective(x: byte, y: byte)
    ensures x as bv8 == y as bv8 <==> x == y
  {
    OctetRoundTrip(x);
    OctetRoundTrip(y);
  }

  /**
   * Any error burst of up to sixteen bits changes the CRC, whatever the message and wherever the burst falls,
   * its end included. The proof pads both messages with two zero bytes.
   */
  lemma BurstDetected(s: seq<byte>, t: seq<byte>, i: nat, k: bv8)
    requires DifferByBurst(s, t, i, k) && i < |s|
    ensures Crc16(s) != Crc16(t)
  {
    var x, y := Octets(s), Octets(t);
    PaddedAgree(s, t, i);
    PaddedAt(x, i);
    PaddedAt(y, i);
    CrcIsRun(s);
    CrcIsRun(t);
    hide Burst, At, Octets, Run, Crc16, Value;
    BurstInOctets(0xFFFF, x + [0, 0], y + [0, 0], i, k);
    RunAppend(0xFFFF, x, [0, 0]);
    RunAppend(0xFFFF, y, [0, 0]);
    ValueInjective(Run(0xFFFF, x), Run(0xFFFF, y));
  }

  lemma PaddedAt(x: seq<bv8>, i: nat)
    requires i < |x|
    ensures var p := x + [0, 0];
            p[i] == At(x, i) && p[i + 1] == At(x, i + 1) && p[i + 2] == At(x, i + 2)
  {
  }

  /** Padding leaves the messages equal outside the three bytes. */
  lemma PaddedAgree(s: seq<byte>, t: seq<byte>, i: nat)
    requires |s| == |t| && i < |s| && forall j :: 0 <= j < |s| && !(i <= j < i + 3) ==> s[j] == t[j]
    ensures var p, q := Octets(s) + [0, 0], Octets(t) + [0, 0]; p[..i] == q[..i] && p[i + 3..] == q[i + 3..]
  {
    var p, q := Octets(s) + [0, 0], Octets(t) + [0, 0];
    forall j | 0 <= j < |p| && !(i <= j < i + 3) ensures p[j] == q[j] {
      if j < |s| {
        assert s[j] == t[j];
      }
    }
  }

  /** The case a reader meets most: one byte changed, or two neighbouring ones. */
  lemma NeighbouringBytesDetected(s: seq<byte>, t: seq<byte>, i: nat)
    requires |s| == |t| && s != t && i < |s|
    requires forall j :: 0 <= j < |s| && j != i && j != i + 1 ==> s[j] == t[j]
    ensures Crc16(s) != Crc16(t)
  {
    hide Crc16, Burst, At, Octets;
    assert s[i] == t[i] && (i + 1 < |s| ==> s[i + 1] == t[i + 1]) ==> s == t;
    var x, y := Octets(s), Octets(t);
    DifferenceAt(s, t, i);
    DifferenceAt(s, t, i + 1);
    DifferenceAt(s, t, i + 2);
    TwoByteBurst(At(x, i) ^ At(y, i), At(x, i + 1) ^ At(y, i + 1), At(x, i + 2) ^ At(y, i + 2));
    BurstDetected(s, t, i, 0);
  }

  lemma ByteDifference(x: byte, y: byte)
    ensures (x as bv8) ^ (y as bv8) == 0 <==> x == y
  {
    Cancel8(x as bv8, y as bv8);
    OctetInjective(x, y);
  }

  lemma DifferenceAt(s: seq<byte>, t: seq<byte>, j: nat)
    requires |s| == |t|
    ensures At(Octets(s), j) ^ At(Octets(t), j) == 0 <==> (j < |s| ==> s[j] == t[j])
  {
    if j < |s| {
      OctetAt(s, j);
      OctetAt(t, j);
      ByteDifference(s[j], t[j]);
    }
  }

  lemma OctetAt(s: seq<byte>, j: nat)
    requires j < |s|
    ensures At(Octets(s), j) == s[j] as bv8
  {
  }

  lemma Cancel8(a: bv8, b: bv8)
    ensures a ^ b == 0 <==> a == b
  {
  }

  lemma TwoByteBurst(d0: bv8, d1: bv8, d2: bv8)
    requires d2 == 0 && (d0 != 0 || d1 != 0)
    ensures Burst(d0, d1, d2, 0)
  {
  }

  lemma EmptyMessage()
    ensures Crc16([]) == 0xFFFF
  {
    assert Octets([]) == [];
    var w: bv16 := 0xFFFF;
    assert w as int == 0xFFFF;
  }

  lemma OctetsWithTrailer(data: seq<byte>, lo: byte, hi: byte)
    ensures Octets(data + [lo, hi]) == Octets(data) + [lo as bv8, hi as bv8]
  {
  }

  lemma CrcIsRun(data: seq<byte>)
    ensures Crc16(data) == Value(Run(0xFFFF, Octets(data)))
  {
  }

  /** Appending its own CRC drives the register to zero, and nothing else does: how a frame is checked. */
  lemma TrailerChecks(data: seq<byte>, lo: byte, hi: byte)
    ensures Crc16(data) == lo + 256 * hi <==> Crc16(data + [lo, hi]) == 0
  {
    hide *;
    var x, trailer := Octets(data), [lo as bv8, hi as bv8];
    OctetsWithTrailer(data, lo, hi);
    CrcIsRun(data);
    CrcIsRun(data + [lo, hi]);
    RunAppend(0xFFFF, x, trailer);
    TrailerCancels(Run(0xFFFF, x), lo, hi);
  }

  /** A trailer drives the register to zero exactly when it is the register. */
  lemma TrailerCancels(c: bv16, lo: byte, hi: byte)
    ensures Value(Run(c, [lo as bv8, hi as bv8])) == 0 <==> Value(c) == lo + 256 * hi
  {
    hide *;
    RunOfTrailer(c, lo as bv8, hi as bv8);
    WordValue(lo as bv8, hi as bv8);
    OctetRoundTrip(lo);
    OctetRoundTrip(hi);
    ValueInjective(c, Word(lo as bv8, hi as bv8));
    ValueInjective(Run(c, [lo as bv8, hi as bv8]), 0);
    ZeroValue();
  }

  lemma ZeroValue()
    ensures Value(0) == 0
  {
  }

  function Word(lo: bv8, hi: bv8): bv16 {
    (lo as bv16) | ((hi as bv16) << 8)
  }

  lemma WordValue(lo: bv8, hi: bv8)
    ensures Value(Word(lo, hi)) == lo as int + 256 * (hi as int)
  {
  }

  lemma RunOfTrailer(c: bv16, lo: bv8, hi: bv8)
    ensures Run(c, [lo, hi]) == 0 <==> c == Word(lo, hi)
  {
    RunStep(c, [lo, hi], 0);
    RunStep(Absorb(c, lo), [lo, hi], 1);
    assert [lo, hi][0..] == [lo, hi];
    TwoBytesCancel(c, lo, hi, Word(lo, hi));
  }
}
