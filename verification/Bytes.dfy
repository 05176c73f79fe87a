/** Byte strings as the LuxPower wire code sees them. */
module Bytes {

  type byte = b: int | 0 <= b < 256

  /** The two bytes every LuxPower frame starts with. */
  const PREFIX: seq<byte> := [0xA1, 0x1A]

  /** Little-endian unsigned value of a (possibly short) slice: `int.from_bytes(s, "little")`. */
  function LittleEndian(s: seq<byte>): (n: nat)
    ensures |s| == 1 ==> n == s[0]
    ensures |s| == 2 ==> n == s[0] as int + 256 * (s[1] as int) < 0x1_0000
  {
    if s == [] then 0 else s[0] as int + 256 * LittleEndian(s[1..])
  }

  /** `n.to_bytes(2, "little")`; defined only where Python does not raise. */
  function TwoBytes(n: nat): (s: seq<byte>)
    requires n < 0x1_0000
    ensures |s| == 2 && LittleEndian(s) == n
  {
    [n % 256, n / 256]
  }

  lemma TwoBytesOfSlice(s: seq<byte>)
    requires |s| == 2
    ensures TwoBytes(LittleEndian(s)) == s
  {
  }

  /** Python's `s[lo:hi]` for non-negative bounds: out-of-range bounds are clamped. */
  function Slice<T>(s: seq<T>, lo: nat, hi: nat): seq<T> {
    if lo >= hi || lo >= |s| then []
    else if hi >= |s| then s[lo..]
    else s[lo..hi]
  }

  lemma SliceOfSlice<T>(s: seq<T>, from: nat, size: nat, i: nat, j: nat)
    requires i <= j <= size && from + size <= |s|
    ensures s[from..from + size][i..j] == s[from + i..from + j]
  {
    var part := s[from..from + size];
    assert forall k :: 0 <= k < j - i ==> part[i..j][k] == part[i + k] == s[from + i + k] == s[from + i..from + j][k];
  }

  /** Taking apart three joined pieces. */
  lemma Parts<T>(p: seq<T>, a: seq<T>, b: seq<T>, c: seq<T>)
    requires p == a + b + c
    ensures p[..|a|] == a && p[|a|..|a| + |b|] == b && p[|a| + |b|..] == c
  {
    assert |p| == |a| + |b| + |c|;
    assert forall i :: 0 <= i < |a| ==> p[i] == a[i];
    assert forall i :: |a| <= i < |a| + |b| ==> p[i] == b[i - |a|];
    assert forall i :: |a| + |b| <= i < |p| ==> p[i] == c[i - |a| - |b|];
  }

  lemma FiveParts<T>(p: seq<T>, a: seq<T>, b: seq<T>, c: seq<T>, d: seq<T>, e: seq<T>)
    requires p == a + b + c + d + e
    ensures p[..|a|] == a && p[|a|..|a| + |b|] == b && p[|a| + |b|..|a| + |b| + |c|] == c
    ensures p[|a| + |b| + |c|..|a| + |b| + |c| + |d|] == d && p[|a| + |b| + |c| + |d|..] == e
  {
    Parts(p, a + b + c, d, e);
    Parts(p[..|a| + |b| + |c|], a, b, c);
  }

  lemma SliceOfFront<T>(p: seq<T>, n: nat, i: nat, j: nat)
    requires i <= j <= n <= |p|
    ensures p[..n][i..j] == p[i..j]
  {
  }

  lemma NothingAppended<T>(a: seq<T>)
    ensures a + [] == a
  {
  }

  lemma Regroup<T>(a: seq<T>, b: seq<T>, c: seq<T>)
    ensures a + b + c == a + (b + c)
  {
  }

  /** The last byte left off before or after the first `q` are. */
  lemma NestedSlices<T>(s: seq<T>, q: nat, n: nat)
    requires n >= 1 && q + n <= |s|
    ensures s[q..][..n][..n - 1] == s[..q + n][..q + n - 1][q..]
  {
    var a, b := s[q..][..n][..n - 1], s[..q + n][..q + n - 1][q..];
    assert forall k :: 0 <= k < n - 1 ==> a[k] == s[q + k] == b[k];
  }
}
