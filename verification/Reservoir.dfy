/** The bounded reservoir behind the percentiles. Which slot a later value replaces is arbitrary. */
module Reservoir {

  datatype Contents = Contents(values: seq<int>, seen: nat)

  const NO_CONTENTS := Contents([], 0)

  /** `draws(n)` stands for the random number drawn for the n-th value; it is taken below n. */
  function Add(c: Contents, capacity: nat, draws: nat -> nat, v: int): Contents {
    var seen := c.seen + 1;
    if |c.values| < capacity then Contents(c.values + [v], seen)
    else
      var slot := draws(seen) % seen;
      Contents(if slot < capacity && slot < |c.values| then c.values[slot := v] else c.values, seen)
  }

  function AddAll(vs: seq<int>, capacity: nat, draws: nat -> nat): Contents {
    if vs == [] then NO_CONTENTS else Add(AddAll(vs[..|vs| - 1], capacity, draws), capacity, draws, vs[|vs| - 1])
  }

  class BoundedReservoir {
    const capacity: nat
    const draws: nat -> nat
    var values: seq<int>
    var seen: nat

    ghost function Model(): Contents
      reads this
    {
      Contents(values, seen)
    }

    /** The source raises for a capacity that is not positive. */
    constructor (capacity: nat, draws: nat -> nat)
      requires capacity > 0
      ensures Model() == NO_CONTENTS && this.capacity == capacity && this.draws == draws
    {
      this.capacity, this.draws, values, seen := capacity, draws, [], 0;
    }

    method AddValue(v: int)
      modifies this
      ensures Model() == Add(old(Model()), capacity, draws, v)
    {
      seen := seen + 1;
      if |values| < capacity {
        values := values + [v];
        return;
      }
      var replacement := draws(seen) % seen;
      if replacement < capacity && replacement < |values| {
        values := values[replacement := v];
      }
    }

    /** The percentiles are exact: nothing has been replaced. */
    predicate Exact()
      reads this
    {
      seen <= capacity
    }
  }

  /**
   * The reservoir holds as many values as fit, each of them one that was added and none more often than it was;
   * while it reports itself exact it holds all of them in order.
   */
  ghost predicate Holds(c: Contents, vs: seq<int>, capacity: nat) {
    && c.seen == |vs| && |c.values| == (if |vs| <= capacity then |vs| else capacity)
    && multiset(c.values) <= multiset(vs)
    && (c.seen <= capacity ==> c.values == vs)
  }

  /** A full reservoir puts the value into the drawn slot if it has that slot, and otherwise stays as it was. */
  lemma FullReservoir(c: Contents, capacity: nat, draws: nat -> nat, v: int)
    requires |c.values| == capacity
    ensures var d, slot := Add(c, capacity, draws, v), draws(c.seen + 1) % (c.seen + 1);
            && |d.values| == capacity && d.seen == c.seen + 1
            && forall i :: 0 <= i < capacity ==> d.values[i] == if i == slot then v else c.values[i]
  {
  }

  lemma MultisetSnoc(vs: seq<int>, v: int)
    ensures multiset(vs + [v]) == multiset(vs) + multiset{v}
  {
  }

  lemma AddHolds(c: Contents, vs: seq<int>, capacity: nat, draws: nat -> nat, v: int)
    requires Holds(c, vs, capacity)
    ensures Holds(Add(c, capacity, draws, v), vs + [v], capacity)
  {
    MultisetSnoc(vs, v);
    MultisetSnoc(c.values, v);
    var slot := draws(c.seen + 1) % (c.seen + 1);
    if |c.values| >= capacity && slot < |c.values| {
      Replaced(c.values, slot, v);
    }
  }

  lemma {:induction false} ReservoirHolds(vs: seq<int>, capacity: nat, draws: nat -> nat)
    ensures Holds(AddAll(vs, capacity, draws), vs, capacity)
    decreases |vs|
  {
    hide Holds, Add;
    if vs == [] {
      NothingHeld(capacity);
    } else {
      var before := vs[..|vs| - 1];
      ReservoirHolds(before, capacity, draws);
      AddHolds(AddAll(before, capacity, draws), before, capacity, draws, vs[|vs| - 1]);
      assert before + [vs[|vs| - 1]] == vs;
    }
  }

  lemma NothingHeld(capacity: nat)
    ensures Holds(NO_CONTENTS, [], capacity)
  {
  }

  lemma Replaced(values: seq<int>, slot: nat, v: int)
    requires slot < |values|
    ensures multiset(values[slot := v]) <= multiset(values) + multiset{v}
  {
    assert values == values[..slot] + [values[slot]] + values[slot + 1..];
    assert values[slot := v] == values[..slot] + [v] + values[slot + 1..];
  }
}
