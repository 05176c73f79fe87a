/** The planner that covers a profile's registers with aligned hardware read blocks. */
module BlockPlanner {

  import opened Registers

  datatype InputReadBlock = InputReadBlock(start: int, count: int) {
    predicate Contains(r: int) {
      start <= r < start + count
    }
  }

  datatype Plan = Planned(blocks: seq<InputReadBlock>) | ValueError

  function Align(r: int, size: int): int
    requires size > 0
  {
    (r / size) * size
  }

  function Starts(registers: set<int>, size: int): set<int>
    requires size > 0
  {
    set r | r in registers :: Align(r, size)
  }

  ghost predicate IsLeast(least: int, s: set<int>) {
    least in s && forall x :: x in s ==> least <= x
  }

  lemma Member<T>(s: set<T>) returns (x: T)
    requires s != {}
    ensures x in s
  {
    x :| x in s;
  }

  lemma HasLeast(s: set<int>)
    requires s != {}
    ensures exists least :: IsLeast(least, s)
  {
    var some := Member(s);
    var rest := s - {some};
    assert forall x :: x in s ==> x == some || x in rest;
    if rest == {} {
      assert IsLeast(some, s);
    } else {
      HasLeast(rest);
      var other :| IsLeast(other, rest);
      assert IsLeast(if other < some then other else some, s);
    }
  }

  /** `sorted(s)`. */
  ghost function Sorted(s: set<int>): (q: seq<int>)
    ensures |q| == |s| && (forall x :: x in q <==> x in s)
    ensures forall i, j :: 0 <= i < j < |q| ==> q[i] < q[j]
  {
    if s == {} then []
    else
      HasLeast(s);
      var least :| IsLeast(least, s);
      var tail := Sorted(s - {least});
      LeastInFront(least, s, tail);
      [least] + tail
  }

  lemma LeastInFront(least: int, s: set<int>, tail: seq<int>)
    requires IsLeast(least, s) && forall x :: x in tail <==> x in s - {least}
    requires forall i, j :: 0 <= i < j < |tail| ==> tail[i] < tail[j]
    ensures forall x :: x in [least] + tail <==> x in s
    ensures forall i, j :: 0 <= i < j < |[least] + tail| ==> ([least] + tail)[i] < ([least] + tail)[j]
  {
    forall i | 0 <= i < |tail| ensures least < tail[i] {
      assert tail[i] in tail && tail[i] in s - {least};
    }
    forall x ensures x in [least] + tail <==> x in s {
      assert x in [least] + tail <==> x == least || x in tail;
      assert x in tail <==> x in s - {least};
    }
  }

  function BlockAt(start: int, size: int): InputReadBlock {
    InputReadBlock(start, if size <= TOTAL_REGISTERS - start then size else TOTAL_REGISTERS - start)
  }

  ghost function PlanAlignedInputBlocks(registers: set<int>, size: int): Plan {
    if size <= 0 then ValueError
    else if exists r :: r in registers && (r < 0 || r >= TOTAL_REGISTERS) then ValueError
    else
      var starts := Sorted(Starts(registers, size));
      Planned(seq(|starts|, i requires 0 <= i < |starts| => BlockAt(starts[i], size)))
  }

  predicate Aligned(start: int, size: int)
    requires size > 0
  {
    0 <= start < TOTAL_REGISTERS && start % size == 0
  }

  lemma SmallMultiple(size: int, d: int)
    requires size > 0 && -size < d * size < size
    ensures d == 0
  {
    if d >= 1 {
      assert d * size == size + (d - 1) * size;
      Product(d - 1, size);
    } else if d <= -1 {
      assert (-d) * size == size + (-d - 1) * size;
      Product(-d - 1, size);
    }
  }

  lemma Product(a: int, b: int)
    requires a >= 0 && b >= 0
    ensures a * b >= 0
  {
  }

  lemma DivMod(m: int, size: int)
    requires size > 0
    ensures m == (m / size) * size + m % size && 0 <= m % size < size
  {
  }

  /** The one aligned block around a register. */
  lemma AlignIsFloor(r: int, size: int)
    requires size > 0
    ensures Align(r, size) <= r < Align(r, size) + size && Align(r, size) % size == 0
    ensures r >= 0 ==> Align(r, size) >= 0
  {
    DivMod(r, size);
    var k := r / size;
    var m := k * size;
    DivMod(m, size);
    assert m % size == (k - m / size) * size;
    SmallMultiple(size, k - m / size);
    if r >= 0 {
      Product(k, size);
    }
  }

  /** Two multiples of the block size that are less than one block apart are the same. */
  lemma MultiplesApart(a: int, b: int, size: int)
    requires size > 0 && a % size == 0 && b % size == 0 && a < b + size && b < a + size
    ensures a == b
  {
    DivMod(a, size);
    DivMod(b, size);
    assert a - b == (a / size - b / size) * size;
    SmallMultiple(size, a / size - b / size);
  }

  /** Block `i`, and no other, holds register `r`. */
  predicate OnlyBlockWith(blocks: seq<InputReadBlock>, r: int, i: int) {
    0 <= i < |blocks| && blocks[i].Contains(r) && forall j :: 0 <= j < |blocks| && blocks[j].Contains(r) ==> j == i
  }

  /**
   * The plan is aligned, strictly sorted, inside 0-749 and free of overlap; every register lies in exactly one of its
   * blocks and every block holds a register. The errors are a size that is not positive and a register outside 0-749.
   */
  lemma PlanCovers(registers: set<int>, size: int)
    ensures PlanAlignedInputBlocks(registers, size).ValueError?
       <==> size <= 0 || exists r :: r in registers && (r < 0 || r >= TOTAL_REGISTERS)
    ensures var plan := PlanAlignedInputBlocks(registers, size);
            plan.Planned? ==>
              && size > 0
              && (forall i :: 0 <= i < |plan.blocks| ==> GoodBlock(plan.blocks[i], registers, size))
              && (forall i, j :: 0 <= i < j < |plan.blocks| ==>
                    plan.blocks[i].start + plan.blocks[i].count <= plan.blocks[j].start)
              && (forall r :: r in registers ==> exists i :: OnlyBlockWith(plan.blocks, r, i))
  {
    hide Align, GoodBlock, Sorted, OnlyBlockWith;
    if PlanAlignedInputBlocks(registers, size).Planned? {
      var blocks := PlanAlignedInputBlocks(registers, size).blocks;
      var starts := Sorted(Starts(registers, size));
      forall i | 0 <= i < |blocks|
        ensures GoodBlock(blocks[i], registers, size)
      {
        assert starts[i] in starts;
        StartIsGood(registers, size, starts[i]);
      }
      forall i, j | 0 <= i < j < |blocks|
        ensures blocks[i].start + blocks[i].count <= blocks[j].start
      {
        assert starts[i] in starts && starts[j] in starts;
        StartsApart(registers, size, starts[i], starts[j]);
      }
      forall r | r in registers
        ensures exists i :: OnlyBlockWith(blocks, r, i)
      {
        AlignIsFloor(r, size);
        assert Align(r, size) in Starts(registers, size);
        assert Align(r, size) in starts;
        var i :| 0 <= i < |starts| && starts[i] == Align(r, size);
        OneBlock(blocks, r, i);
      }
    }
  }

  lemma StartIsGood(registers: set<int>, size: int, start: int)
    requires size > 0 && forall r :: r in registers ==> 0 <= r < TOTAL_REGISTERS
    requires start in Starts(registers, size)
    ensures GoodBlock(BlockAt(start, size), registers, size)
  {
    hide Align;
    var r :| r in registers && Align(r, size) == start;
    AlignIsFloor(r, size);
    assert BlockAt(start, size).Contains(r);
  }

  lemma StartsApart(registers: set<int>, size: int, a: int, b: int)
    requires size > 0 && a in Starts(registers, size) && b in Starts(registers, size) && a < b
    ensures a + size <= b
  {
    hide Align;
    var r :| r in registers && Align(r, size) == a;
    var q :| q in registers && Align(q, size) == b;
    AlignIsFloor(r, size);
    AlignIsFloor(q, size);
    if b < a + size {
      MultiplesApart(a, b, size);
    }
  }

  lemma OneBlock(blocks: seq<InputReadBlock>, r: int, i: int)
    requires forall i, j :: 0 <= i < j < |blocks| ==> blocks[i].start + blocks[i].count <= blocks[j].start
    requires 0 <= i < |blocks| && blocks[i].Contains(r)
    ensures OnlyBlockWith(blocks, r, i)
  {
  }

  /** Aligned, no larger than a hardware block, inside 0-749, and needed. */
  ghost predicate GoodBlock(b: InputReadBlock, registers: set<int>, size: int)
    requires size > 0
  {
    && Aligned(b.start, size) && 1 <= b.count <= size && b.start + b.count <= TOTAL_REGISTERS
    && exists r :: r in registers && b.Contains(r)
  }

  ghost predicate Covers(cover: set<int>, size: int, r: int) {
    exists c :: c in cover && BlockAt(c, size).Contains(r)
  }

  /** No set of aligned blocks that covers the registers is smaller than the plan. */
  lemma PlanIsMinimal(registers: set<int>, size: int, cover: set<int>)
    requires size > 0 && forall r :: r in registers ==> 0 <= r < TOTAL_REGISTERS
    requires forall c :: c in cover ==> Aligned(c, size)
    requires forall r :: r in registers ==> Covers(cover, size, r)
    ensures |PlanAlignedInputBlocks(registers, size).blocks| <= |cover|
  {
    hide Align;
    var starts := Starts(registers, size);
    forall s | s in starts ensures s in cover {
      var r :| r in registers && Align(r, size) == s;
      assert Covers(cover, size, r);
      var c :| c in cover && BlockAt(c, size).Contains(r);
      AlignIsFloor(r, size);
      MultiplesApart(c, s, size);
    }
    assert starts <= cover;
    SubsetIsSmaller(starts, cover);
  }

  lemma {:induction false} SubsetIsSmaller(a: set<int>, b: set<int>)
    requires a <= b
    ensures |a| <= |b|
  {
    if a != {} {
      var x := Member(a);
      SubsetIsSmaller(a - {x}, b - {x});
    }
  }
}
