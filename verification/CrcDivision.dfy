/**
 * What the CRC is, without shift registers: the remainder of the message, as a polynomial over two elements, divided
 * by x^16 + x^15 + x^2 + 1. Bytes are sent low bit first, and the first sixteen bits are inverted beforehand.
 */
module CrcDivision {
  import opened Bytes
  import opened Crc

  // ---------- polynomials as coefficients, highest power first ----------

  /** The coefficients of x^15 + x^2 + 1: what the generator has below x^16. */
  function Generator(): (g: seq<bool>)
    ensures |g| == 16
  {
    seq(16, i requires 0 <= i < 16 => i == 15 - 15 || i == 15 - 2 || i == 15 - 0)
  }

  function Repeated(b: bool, n: nat): (r: seq<bool>)
    ensures |r| == n
  {
    seq(n, i requires 0 <= i < n => b)
  }

  /** Sum and difference are the same. */
  function Minus(a: seq<bool>, b: seq<bool>): (d: seq<bool>)
    requires |a| == |b|
    ensures |d| == |a|
  {
    seq(|a|, i requires 0 <= i < |a| => a[i] != b[i])
  }

  /** Subtracts `b` from the front of `a`. */
  function MinusFront(a: seq<bool>, b: seq<bool>): (d: seq<bool>)
    requires |a| >= |b|
    ensures |d| == |a|
  {
    Minus(a[..|b|], b) + a[|b|..]
  }

  /** Long division by the generator: cancel the leading coefficient until sixteen are left. */
  function Remainder(dividend: seq<bool>): (r: seq<bool>)
    requires |dividend| >= 16
    ensures |r| == 16
    decreases |dividend|
  {
    if |dividend| == 16 then dividend
    else if dividend[0] then Remainder(MinusFront(dividend[1..], Generator()))
    else Remainder(dividend[1..])
  }

  // ---------- messages and numbers as bits, low bit first ----------

  function BitsOf(x: nat, n: nat): (b: seq<bool>)
    ensures |b| == n
  {
    if n == 0 then [] else [x % 2 == 1] + BitsOf(x / 2, n - 1)
  }

  function MessageBits(data: seq<byte>): (b: seq<bool>)
    ensures |b| == 8 * |data|
  {
    if data == [] then [] else BitsOf(data[0], 8) + MessageBits(data[1..])
  }

  function Number(bits: seq<bool>): nat {
    if bits == [] then 0 else (if bits[0] then 1 else 0) + 2 * Number(bits[1..])
  }

  // ---------- the register against the division ----------

  function Half(c: bv16): bv16 {
    c >> 1
  }

  predicate Odd(c: bv16) {
    c & 1 != 0
  }

  /** Bit `i` of the register, counted from its low end. */
  predicate Test(c: bv16, i: nat) {
    if i == 0 then Odd(c) else Test(Half(c), i - 1)
  }

  /** The register's bits, low bit first: coefficients of x^15 down to 1. */
  function Coefficients(c: bv16): (r: seq<bool>)
    ensures |r| == 16
  {
    seq(16, i requires 0 <= i < 16 => Test(c, i))
  }

  /** One more bit of the message enters the register. */
  function BitIn(r: seq<bool>, x: bool): (n: seq<bool>)
    requires |r| == 16
    ensures |n| == 16
  {
    Minus(r[1..] + [false], if r[0] != x then Generator() else Repeated(false, 16))
  }

  function BitsIn(r: seq<bool>, bits: seq<bool>): (n: seq<bool>)
    requires |r| == 16
    ensures |n| == 16
    decreases |bits|
  {
    if bits == [] then r else BitsIn(BitIn(r, bits[0]), bits[1..])
  }

  lemma MinusFrontAt(a: seq<bool>, b: seq<bool>, i: nat)
    requires |b| <= |a| && i < |a|
    ensures MinusFront(a, b)[i] == if i < |b| then a[i] != b[i] else a[i]
  {
  }

  lemma OneStep(r: seq<bool>, x: bool, rest: seq<bool>)
    requires |r| == 16 && |rest| >= 16
    ensures Remainder(MinusFront([x] + rest, r)) == Remainder(MinusFront(rest, BitIn(r, x)))
  {
    var d := MinusFront([x] + rest, r);
    MinusFrontAt([x] + rest, r, 0);
    forall i | 0 <= i < |rest| ensures d[i + 1] == MinusFront(rest, r[1..] + [false])[i] {
      MinusFrontAt([x] + rest, r, i + 1);
      MinusFrontAt(rest, r[1..] + [false], i);
    }
    assert d[1..] == MinusFront(rest, r[1..] + [false]);
    if d[0] {
      assert MinusFront(d[1..], Generator()) == MinusFront(rest, BitIn(r, x));
    } else {
      assert BitIn(r, x) == r[1..] + [false];
    }
  }

  /** The register holds what the bits read so far still do to the bits to come. */
  lemma {:induction false} Steps(r: seq<bool>, bits: seq<bool>, rest: seq<bool>)
    requires |r| == 16 && |rest| >= 16
    ensures Remainder(MinusFront(bits + rest, r)) == Remainder(MinusFront(rest, BitsIn(r, bits)))
    decreases |bits|
  {
    hide Remainder, MinusFront, BitIn;
    if bits == [] {
      assert bits + rest == rest;
    } else {
      assert bits + rest == [bits[0]] + (bits[1..] + rest);
      OneStep(r, bits[0], bits[1..] + rest);
      Steps(BitIn(r, bits[0]), bits[1..], rest);
    }
  }

  // ---------- one byte ----------

  /** The low bit of `w` is fed now, the others are still to come. */
  lemma Peel(c: bv16, w: bv16)
    ensures Bit(c ^ w) == Bit(c ^ (w & 1)) ^ (w >> 1)
  {
  }

  lemma HalfOfXor(c: bv16, d: bv16)
    ensures Half(Xor(c, d)) == Xor(Half(c), Half(d))
  {
  }

  lemma OddXor(c: bv16, d: bv16)
    ensures Odd(Xor(c, d)) == (Odd(c) != Odd(d))
  {
  }

  lemma {:induction false} TestOfXor(c: bv16, d: bv16, i: nat)
    ensures Test(Xor(c, d), i) == (Test(c, i) != Test(d, i))
    decreases i
  {
    hide Half, Odd, Xor;
    OddXor(c, d);
    if i > 0 {
      HalfOfXor(c, d);
      TestOfXor(Half(c), Half(d), i - 1);
    }
  }

  lemma HalvedAway(c: bv16)
    ensures c >> 1 >> 1 >> 1 >> 1 >> 1 >> 1 >> 1 >> 1 >> 1 >> 1 >> 1 >> 1 >> 1 >> 1 >> 1 >> 1 == 0
  {
  }

  lemma NothingAbove(c: bv16)
    ensures !Test(c, 16)
  {
    var d0 := c;
    var d1 := Half(d0);
    var d2 := Half(d1);
    var d3 := Half(d2);
    var d4 := Half(d3);
    var d5 := Half(d4);
    var d6 := Half(d5);
    var d7 := Half(d6);
    var d8 := Half(d7);
    var d9 := Half(d8);
    var d10 := Half(d9);
    var d11 := Half(d10);
    var d12 := Half(d11);
    var d13 := Half(d12);
    var d14 := Half(d13);
    var d15 := Half(d14);
    var d16 := Half(d15);
    HalvedAway(c);
    assert d16 == 0;
    assert Test(d15, 1) == Test(d16, 0);
    assert Test(d14, 2) == Test(d15, 1);
    assert Test(d13, 3) == Test(d14, 2);
    assert Test(d12, 4) == Test(d13, 3);
    assert Test(d11, 5) == Test(d12, 4);
    assert Test(d10, 6) == Test(d11, 5);
    assert Test(d9, 7) == Test(d10, 6);
    assert Test(d8, 8) == Test(d9, 7);
    assert Test(d7, 9) == Test(d8, 8);
    assert Test(d6, 10) == Test(d7, 9);
    assert Test(d5, 11) == Test(d6, 10);
    assert Test(d4, 12) == Test(d5, 11);
    assert Test(d3, 13) == Test(d4, 12);
    assert Test(d2, 14) == Test(d3, 13);
    assert Test(d1, 15) == Test(d2, 14);
    assert Test(d0, 16) == Test(d1, 15);
    hide Half;
  }

  lemma EightHigher(c: bv16, i: nat)
    ensures Test(c, i + 8) == Test(Half(Half(Half(Half(Half(Half(Half(Half(c)))))))), i)
  {
    hide Half, Odd;
    var d0 := c;
    var d1 := Half(d0);
    var d2 := Half(d1);
    var d3 := Half(d2);
    var d4 := Half(d3);
    var d5 := Half(d4);
    var d6 := Half(d5);
    var d7 := Half(d6);
    var d8 := Half(d7);
    assert Test(d0, i + 8) == Test(d1, i + 7);
    assert Test(d1, i + 7) == Test(d2, i + 6);
    assert Test(d2, i + 6) == Test(d3, i + 5);
    assert Test(d3, i + 5) == Test(d4, i + 4);
    assert Test(d4, i + 4) == Test(d5, i + 3);
    assert Test(d5, i + 3) == Test(d6, i + 2);
    assert Test(d6, i + 2) == Test(d7, i + 1);
    assert Test(d7, i + 1) == Test(d8, i + 0);
  }

  lemma FeedbackBits(i: nat)
    requires i < 16
    ensures Test(0xA001, i) == Generator()[i]
  {
    if i < 8 {
      assert Test(0xA001, 0);
      assert !Test(0xA001, 1);
      assert !Test(0xA001, 2);
      assert !Test(0xA001, 3);
      assert !Test(0xA001, 4);
      assert !Test(0xA001, 5);
      assert !Test(0xA001, 6);
      assert !Test(0xA001, 7);
    } else {
      EightHigher(0xA001, i - 8);
      assert !Test(0xA0, 0);
      assert !Test(0xA0, 1);
      assert !Test(0xA0, 2);
      assert !Test(0xA0, 3);
      assert !Test(0xA0, 4);
      assert Test(0xA0, 5);
      assert !Test(0xA0, 6);
      assert Test(0xA0, 7);
    }
  }

  lemma ShiftedCoefficients(c: bv16)
    ensures Coefficients(c >> 1) == Coefficients(c)[1..] + [false]
  {
    NothingAbove(c);
    var d := c >> 1;
    assert d == Half(c);
    hide Half, Odd;
    assert forall i: nat :: i < 16 ==> Test(d, i) == Test(c, i + 1);
  }

  lemma ReducedCoefficients(c: bv16)
    ensures Coefficients(c ^ 0xA001) == Minus(Coefficients(c), Generator())
  {
    var d := Xor(c, 0xA001);
    assert d == c ^ 0xA001;
    hide Xor, Half, Odd, Test;
    forall i | 0 <= i < 16 ensures Test(d, i) == (Test(c, i) != Generator()[i]) {
      TestOfXor(c, 0xA001, i);
      FeedbackBits(i);
    }
  }

  lemma BitByCases(c: bv16, w: bv16)
    ensures c & 1 != w & 1 ==> Bit(c ^ (w & 1)) == (c >> 1) ^ 0xA001
    ensures c & 1 == w & 1 ==> Bit(c ^ (w & 1)) == c >> 1
  {
  }

  lemma LowBits(c: bv16, w: bv16)
    ensures c & 1 == w & 1 <==> (c & 1 != 0) == (w & 1 != 0)
  {
  }

  lemma BitOfCoefficients(c: bv16, w: bv16)
    ensures Coefficients(Bit(c ^ (w & 1))) == BitIn(Coefficients(c), w & 1 != 0)
  {
    hide Bit, Coefficients;
    BitByCases(c, w);
    LowBits(c, w);
    FirstCoefficient(c);
    ShiftedCoefficients(c);
    ReducedCoefficients(c >> 1);
    assert Minus(Coefficients(c)[1..] + [false], Repeated(false, 16)) == Coefficients(c)[1..] + [false];
  }

  lemma FirstCoefficient(c: bv16)
    ensures Coefficients(c)[0] == (c & 1 != 0)
  {
  }

  /** The register while the low bits of `w` are fed one by one: what is fed, and what is still to come. */
  lemma FeedOne(c: bv16, w: bv16, s: bv16, d: bv16)
    requires s == Xor(c, w) && d == Bit(c ^ (w & 1))
    ensures Bit(s) == Xor(d, Half(w))
    ensures Coefficients(d) == BitIn(Coefficients(c), Odd(w))
  {
    Peel(c, w);
    BitOfCoefficients(c, w);
    hide Coefficients, Bit;
  }

  /** Eight bits of `w`, fed at once or one by one. */
  lemma {:induction false} FeedMany(c: bv16, w: bv16, k: nat) returns (d: bv16, rest: bv16)
    ensures Shifts(Xor(c, w), k) == Xor(d, rest) && rest == Halves(w, k)
    ensures Coefficients(d) == BitsIn(Coefficients(c), Tests(w, k))
    decreases k
  {
    hide Bit, Coefficients, Half, Odd, Xor, BitIn;
    if k == 0 {
      d, rest := c, w;
    } else {
      var e, v := FeedMany(c, w, k - 1);
      d, rest := Bit(e ^ (v & 1)), Half(v);
      FeedOne(e, v, Xor(e, v), d);
      TestsSnoc(w, k - 1);
      BitsInSnoc(Coefficients(c), Tests(w, k - 1), Odd(v));
    }
  }

  function Halves(w: bv16, k: nat): bv16 {
    if k == 0 then w else Half(Halves(w, k - 1))
  }

  function Tests(w: bv16, k: nat): (r: seq<bool>)
    ensures |r| == k
  {
    if k == 0 then [] else Tests(w, k - 1) + [Odd(Halves(w, k - 1))]
  }

  lemma TestsSnoc(w: bv16, k: nat)
    ensures Tests(w, k + 1) == Tests(w, k) + [Odd(Halves(w, k))]
  {
  }

  lemma {:induction false} BitsInSnoc(r: seq<bool>, bits: seq<bool>, x: bool)
    requires |r| == 16
    ensures BitsIn(r, bits + [x]) == BitIn(BitsIn(r, bits), x)
    decreases |bits|
  {
    hide BitIn;
    if bits == [] {
      assert [] + [x] == [x] && [x][1..] == [];
    } else {
      assert (bits + [x])[1..] == bits[1..] + [x];
      BitsInSnoc(BitIn(r, bits[0]), bits[1..], x);
    }
  }

  lemma EmptiedByEight(b: bv8, w: bv16)
    requires w == b as bv16
    ensures w >> 1 >> 1 >> 1 >> 1 >> 1 >> 1 >> 1 >> 1 == 0
  {
  }

  lemma HalvesOfOctet(b: bv8, w: bv16)
    requires w == b as bv16
    ensures Halves(w, 8) == 0
  {
    EmptiedByEight(b, w);
    var d0 := w;
    var d1 := Half(d0);
    var d2 := Half(d1);
    var d3 := Half(d2);
    var d4 := Half(d3);
    var d5 := Half(d4);
    var d6 := Half(d5);
    var d7 := Half(d6);
    var d8 := Half(d7);
    assert d8 == 0;
    hide Half;
    assert Halves(w, 1) == d1;
    assert Halves(w, 2) == d2;
    assert Halves(w, 3) == d3;
    assert Halves(w, 4) == d4;
    assert Halves(w, 5) == d5;
    assert Halves(w, 6) == d6;
    assert Halves(w, 7) == d7;
    assert Halves(w, 8) == d8;
  }

  /** A byte enters the register bit by bit, low bit first. */
  lemma AbsorbFeedsBits(c: bv16, b: bv8, w: bv16)
    requires w == b as bv16
    ensures Coefficients(Absorb(c, b)) == BitsIn(Coefficients(c), Tests(w, 8))
  {
    var d, rest := FeedMany(c, w, 8);
    HalvesOfOctet(b, w);
    NothingXored(d);
    assert Absorb(c, b) == Shifts(Xor(c, w), 8);
    hide *;
  }

  lemma NothingXored(d: bv16)
    ensures Xor(d, 0) == d
  {
  }

  // ---------- bits of numbers ----------

  function Twice(h: bv16): bv16 {
    h << 1
  }

  function TwiceAndOne(h: bv16): bv16 {
    (h << 1) | 1
  }

  lemma Doubled(h: bv16)
    requires h <= 0x7FFF
    ensures Value(Twice(h)) == 2 * Value(h)
  {
  }

  lemma DoubledAndOne(h: bv16)
    requires h <= 0x7FFF
    ensures Value(TwiceAndOne(h)) == 2 * Value(h) + 1
  {
  }

  lemma TakenApart(v: bv16)
    ensures Half(v) <= 0x7FFF && v == if Odd(v) then TwiceAndOne(Half(v)) else Twice(Half(v))
  {
  }

  lemma HalfValue(v: bv16)
    ensures Value(v) == 2 * Value(Half(v)) + if Odd(v) then 1 else 0
  {
    hide *;
    TakenApart(v);
    Doubled(Half(v));
    DoubledAndOne(Half(v));
  }

  lemma {:induction false} HalvesInside(w: bv16, k: nat)
    ensures Halves(Half(w), k) == Half(Halves(w, k))
  {
    hide Half;
    if k > 0 {
      HalvesInside(w, k - 1);
    }
  }

  lemma {:induction false} TestsFirst(w: bv16, k: nat)
    ensures Tests(w, k + 1) == [Odd(w)] + Tests(Half(w), k)
  {
    hide Half, Odd;
    if k == 0 {
      assert Tests(w, 1) == [] + [Odd(Halves(w, 0))];
    } else {
      TestsFirst(w, k - 1);
      HalvesInside(w, k - 1);
      Regroup([Odd(w)], Tests(Half(w), k - 1), [Odd(Halves(w, k))]);
    }
  }

  lemma {:induction false} TestsAreBits(w: bv16, k: nat)
    ensures Tests(w, k) == BitsOf(Value(w), k)
    decreases k
  {
    hide Half, Odd, Value;
    if k > 0 {
      hide Tests;
      HalfValue(w);
      TestsFirst(w, k - 1);
      TestsAreBits(Half(w), k - 1);
    }
  }

  lemma FirstBits(x: nat, k: nat)
    requires k > 0
    ensures BitsOf(x, k)[0] == (x % 2 == 1) && BitsOf(x, k)[1..] == BitsOf(x / 2, k - 1)
  {
  }

  lemma {:induction false} TestIsBit(w: bv16, k: nat, i: nat)
    requires i < k
    ensures Test(w, i) == BitsOf(Value(w), k)[i]
    decreases k
  {
    hide Half, Odd, Value, BitsOf;
    HalfValue(w);
    FirstBits(Value(w), k);
    if i > 0 {
      TestIsBit(Half(w), k - 1, i - 1);
    }
  }

  lemma CoefficientsAreBits(c: bv16)
    ensures Coefficients(c) == BitsOf(Value(c), 16)
  {
    hide Test, Value, BitsOf;
    forall i | 0 <= i < 16 ensures Test(c, i) == BitsOf(Value(c), 16)[i] {
      TestIsBit(c, 16, i);
    }
  }

  function Power2(n: nat): nat {
    if n == 0 then 1 else 2 * Power2(n - 1)
  }

  lemma PowerOfSixteen()
    ensures Power2(16) == 0x1_0000
  {
    assert Power2(8) == 256;
    assert Power2(12) == 4096;
  }

  lemma {:induction false} NumberOfBits(x: nat, n: nat)
    requires x < Power2(n)
    ensures Number(BitsOf(x, n)) == x
  {
    if n > 0 {
      NumberOfBits(x / 2, n - 1);
      assert BitsOf(x, n)[1..] == BitsOf(x / 2, n - 1);
    }
  }

  // ---------- the message ----------

  lemma ByteBits(x: byte, b: bv8, w: bv16)
    requires b == x as bv8 && w == b as bv16
    ensures Tests(w, 8) == BitsOf(x, 8)
  {
    OctetRoundTrip(x);
    WidenValue(b, w);
    TestsAreBits(w, 8);
  }

  lemma WidenValue(b: bv8, w: bv16)
    requires w == b as bv16
    ensures Value(w) == b as int
  {
  }

  lemma FirstOctet(data: seq<byte>)
    requires data != []
    ensures Octets(data)[0] == data[0] as bv8 && Octets(data)[1..] == Octets(data[1..])
  {
  }

  /** The register after any message is the remainder of what it and the message together spell. */
  lemma {:induction false} RunDivides(c: bv16, data: seq<byte>)
    ensures Coefficients(Run(c, Octets(data)))
         == Remainder(MinusFront(MessageBits(data) + Repeated(false, 16), Coefficients(c)))
    decreases |data|
  {
    if data == [] {
      NothingToDivide(c);
    } else {
      var b := data[0] as bv8;
      var w := b as bv16;
      FirstOctet(data);
      AbsorbFeedsBits(c, b, w);
      ByteBits(data[0], b, w);
      RunDivides(Absorb(c, b), data[1..]);
      hide Coefficients, Absorb, Octets, Remainder, MinusFront, BitsIn, BitsOf, Tests;
      Steps(Coefficients(c), BitsOf(data[0], 8), MessageBits(data[1..]) + Repeated(false, 16));
      Regroup(BitsOf(data[0], 8), MessageBits(data[1..]), Repeated(false, 16));
    }
  }

  lemma NothingToDivide(c: bv16)
    ensures Coefficients(Run(c, Octets([])))
         == Remainder(MinusFront(MessageBits([]) + Repeated(false, 16), Coefficients(c)))
  {
    var bits := MessageBits([]) + Repeated(false, 16);
    assert bits == Repeated(false, 16);
    assert MinusFront(bits, Coefficients(c)) == Coefficients(c);
    assert Octets([]) == [];
  }

  /**
   * The CRC of a message is the remainder of the message, its first sixteen bits inverted and sixteen zeros behind it,
   * divided by x^16 + x^15 + x^2 + 1, read low bit first.
   */
  lemma CrcIsRemainder(data: seq<byte>)
    ensures Crc16(data)
         == Number(Remainder(MinusFront(MessageBits(data) + Repeated(false, 16), Repeated(true, 16))))
  {
    var c := Run(0xFFFF, Octets(data));
    CrcIsRun(data);
    RunDivides(0xFFFF, data);
    AllOnes();
    CoefficientsAreBits(c);
    PowerOfSixteen();
    NumberOfBits(Value(c), 16);
    hide *;
  }

  lemma AllOnes()
    ensures Coefficients(0xFFFF) == Repeated(true, 16)
  {
    forall i | 0 <= i < 16 ensures Test(0xFFFF, i) {
      OnesTest(i);
    }
  }

  lemma OnesTest(i: nat)
    requires i < 16
    ensures Test(0xFFFF, i)
  {
    if i < 8 {
      assert Test(0xFFFF, 0);
      assert Test(0xFFFF, 1);
      assert Test(0xFFFF, 2);
      assert Test(0xFFFF, 3);
      assert Test(0xFFFF, 4);
      assert Test(0xFFFF, 5);
      assert Test(0xFFFF, 6);
      assert Test(0xFFFF, 7);
    } else {
      EightHigher(0xFFFF, i - 8);
      assert Test(0xFF, 0);
      assert Test(0xFF, 1);
      assert Test(0xFF, 2);
      assert Test(0xFF, 3);
      assert Test(0xFF, 4);
      assert Test(0xFF, 5);
      assert Test(0xFF, 6);
      assert Test(0xFF, 7);
    }
  }
}
