/** Observation subscriptions: bounded queues that drop their own oldest entry rather than delay the reader. */
module Subscriptions {

  /**
   * One subscriber ever created. Observations are named by their sequence numbers; `since` is the newest number when
   * it subscribed and `delivered` what its consumer has taken so far.
   */
  datatype Subscriber = Subscriber(
    capacity: nat, queue: seq<nat>, received: nat, dropped: nat, last: nat, active: bool, since: nat,
    delivered: seq<nat>)

  function Fresh(capacity: nat, since: nat): Subscriber {
    Subscriber(capacity, [], 0, 0, 0, true, since, [])
  }

  /** `_publish_observation` for one subscriber. */
  function Offer(s: Subscriber, n: nat): Subscriber {
    if !s.active then s
    else
      var full := |s.queue| >= s.capacity && s.queue != [];
      var kept := if full then s.queue[1..] else s.queue;
      s.(queue := kept + [n], dropped := s.dropped + (if full then 1 else 0), received := s.received + 1, last := n)
  }

  /** A consumer takes the oldest entry. */
  function Take(s: Subscriber): Subscriber {
    if s.queue == [] then s else s.(queue := s.queue[1..], delivered := s.delivered + [s.queue[0]])
  }

  function Drain(s: Subscriber): Subscriber {
    s.(queue := [], delivered := s.delivered + s.queue)
  }

  function Close(s: Subscriber): Subscriber {
    if !s.active then s else s.(active := false, queue := [])
  }

  predicate Increasing(s: seq<nat>) {
    forall i, j :: 0 <= i < j < |s| ==> s[i] < s[j]
  }

  function Upto(n: nat, k: nat): (s: seq<nat>)
    requires k <= n
    ensures |s| == k
  {
    seq(k, i requires 0 <= i < k => n - k + 1 + i)
  }

  /**
   * After `n` published observations: the queue is exactly the newest ones, in order and within capacity; everything
   * received was delivered, dropped or is queued; and deliveries came in increasing order from what precedes the queue.
   */
  ghost predicate Consistent(s: Subscriber, n: nat) {
    && s.capacity >= 1 && s.since <= n
    && (s.active ==>
          && s.received == n - s.since && |s.queue| <= s.capacity && |s.queue| <= s.received
          && s.queue == Upto(n, |s.queue|)
          && s.received == |s.delivered| + s.dropped + |s.queue|
          && (s.received > 0 ==> s.last == n)
          && (forall i :: 0 <= i < |s.delivered| ==> s.since < s.delivered[i] <= n - |s.queue|))
    && Increasing(s.delivered)
    && (!s.active ==> s.queue == [])
  }

  lemma FreshConsistent(capacity: nat, n: nat)
    requires capacity >= 1
    ensures Consistent(Fresh(capacity, n), n)
  {
  }

  lemma OfferConsistent(s: Subscriber, n: nat)
    requires Consistent(s, n)
    ensures Consistent(Offer(s, n + 1), n + 1)
  {
    if s.active {
      var t := Offer(s, n + 1);
      var kept := if |s.queue| >= s.capacity then s.queue[1..] else s.queue;
      assert t.queue == kept + [n + 1];
      assert t.queue == Upto(n + 1, |t.queue|);
    }
  }

  /** An open subscription takes every observation, and gives up its oldest only when its queue is full. */
  lemma OfferExactly(s: Subscriber, n: nat)
    requires Consistent(s, n) && s.active
    ensures var t := Offer(s, n + 1);
            && t.received == s.received + 1 && t.last == n + 1 && t.active && t.delivered == s.delivered
            && (if |s.queue| == s.capacity then
                  t.dropped == s.dropped + 1 && t.queue == s.queue[1..] + [n + 1] && |t.queue| == s.capacity
                else t.dropped == s.dropped && t.queue == s.queue + [n + 1])
  {
  }

  /** Closing empties the queue and keeps every counter; a closed subscription takes nothing more. */
  lemma CloseExactly(s: Subscriber, n: nat)
    requires Consistent(s, n)
    ensures var t := Close(s);
            && !t.active && t.queue == [] && t.received == s.received && t.dropped == s.dropped && t.last == s.last
            && t.delivered == s.delivered && Offer(t, n + 1) == t
  {
  }

  lemma TakeConsistent(s: Subscriber, n: nat)
    requires Consistent(s, n)
    ensures Consistent(Take(s), n)
  {
    if s.queue != [] {
      assert s.queue[1..] == Upto(n, |s.queue| - 1);
      assert s.queue[0] == n - |s.queue| + 1;
    }
  }

  lemma DrainConsistent(s: Subscriber, n: nat)
    requires Consistent(s, n)
    ensures Consistent(Drain(s), n)
  {
    assert Upto(n, 0) == [];
  }

  lemma CloseConsistent(s: Subscriber, n: nat)
    requires Consistent(s, n)
    ensures Consistent(Close(s), n) && Close(s).dropped == s.dropped
  {
  }

  // ---------- the hub inside the session ----------

  function TotalDropped(all: seq<Subscriber>): nat {
    if all == [] then 0 else TotalDropped(all[..|all| - 1]) + all[|all| - 1].dropped
  }

  lemma {:induction false} DropAt(all: seq<Subscriber>, i: nat, s: Subscriber)
    requires i < |all|
    ensures TotalDropped(all[i := s]) == TotalDropped(all) - all[i].dropped + s.dropped
  {
    var last := |all| - 1;
    if i == last {
      assert all[i := s][..last] == all[..last];
    } else {
      assert all[i := s][..last] == all[..last][i := s];
      DropAt(all[..last], i, s);
    }
  }

  /** Subscribers are kept by identifier, in the order of creation; closed ones keep their final counters. */
  class ObservationHub {
    var subscribers: seq<Subscriber>
    var queueDrops: nat
    var sequence: nat

    ghost predicate Valid()
      reads this
    {
      && (forall i :: 0 <= i < |subscribers| ==> Consistent(subscribers[i], sequence))
      && queueDrops == TotalDropped(subscribers)
    }

    constructor ()
      ensures Valid() && subscribers == [] && sequence == 0
    {
      subscribers, queueDrops, sequence := [], 0, 0;
    }

    /** The source raises for a queue size that is not positive. */
    method Subscribe(maxQueueSize: int) returns (identifier: int)
      requires Valid()
      modifies this
      ensures Valid() && sequence == old(sequence)
      ensures if maxQueueSize <= 0 then identifier == -1 && subscribers == old(subscribers)
              else identifier == |old(subscribers)| && subscribers == old(subscribers) + [Fresh(maxQueueSize, sequence)]
    {
      if maxQueueSize <= 0 {
        return -1;
      }
      identifier := |subscribers|;
      FreshConsistent(maxQueueSize, sequence);
      subscribers := subscribers + [Fresh(maxQueueSize, sequence)];
      assert subscribers[..identifier] == old(subscribers);
    }

    /** Offer the next accepted observation to every open subscription. */
    method Publish()
      requires Valid()
      modifies this
      ensures Valid() && sequence == old(sequence) + 1 && |subscribers| == |old(subscribers)|
      ensures forall i :: 0 <= i < |subscribers| ==> subscribers[i] == Offer(old(subscribers)[i], sequence)
    {
      var n := sequence + 1;
      hide Consistent, TotalDropped;
      for i := 0 to |subscribers|
        invariant |subscribers| == |old(subscribers)| && sequence == old(sequence)
        invariant forall j :: 0 <= j < i ==> subscribers[j] == Offer(old(subscribers)[j], n)
        invariant forall j :: i <= j < |subscribers| ==> subscribers[j] == old(subscribers)[j]
        invariant queueDrops == TotalDropped(subscribers)
      {
        var state := subscribers[i];
        if state.active {
          if |state.queue| >= state.capacity && state.queue != [] {
            state := state.(queue := state.queue[1..], dropped := state.dropped + 1);
            queueDrops := queueDrops + 1;
          }
          state := state.(queue := state.queue + [n]);
          state := state.(received := state.received + 1, last := n);
        }
        assert state == Offer(subscribers[i], n);
        DropAt(subscribers, i, state);
        subscribers := subscribers[i := state];
      }
      sequence := n;
      forall i | 0 <= i < |subscribers| ensures Consistent(subscribers[i], n) {
        OfferConsistent(old(subscribers)[i], n - 1);
      }
    }

    method Replace(i: nat, s: Subscriber)
      requires Valid() && i < |subscribers| && Consistent(s, sequence) && s.dropped == subscribers[i].dropped
      modifies this`subscribers
      ensures Valid() && subscribers == old(subscribers)[i := s]
    {
      DropAt(subscribers, i, s);
      subscribers := subscribers[i := s];
    }

    /** The sole consumer's `async_next`, once an entry is there. */
    method Next(i: nat) returns (n: nat)
      requires Valid() && i < |subscribers| && subscribers[i].active && subscribers[i].queue != []
      modifies this`subscribers
      ensures Valid() && subscribers == old(subscribers)[i := Take(old(subscribers)[i])]
      ensures n == old(subscribers)[i].queue[0]
      ensures subscribers[i].delivered == old(subscribers)[i].delivered + [n]
    {
      n := subscribers[i].queue[0];
      TakeConsistent(subscribers[i], sequence);
      Replace(i, Take(subscribers[i]));
    }

    method DrainAll(i: nat) returns (observations: seq<nat>)
      requires Valid() && i < |subscribers|
      modifies this`subscribers
      ensures Valid() && subscribers == old(subscribers)[i := Drain(old(subscribers)[i])]
      ensures observations == old(subscribers)[i].queue
    {
      hide TotalDropped, Upto;
      observations := [];
      ghost var start := subscribers[i];
      assert start.delivered + observations == start.delivered;
      while subscribers[i].queue != []
        invariant Valid() && |subscribers| == |old(subscribers)|
        invariant subscribers == old(subscribers)[i := start.(queue := subscribers[i].queue,
                  delivered := start.delivered + observations)]
        invariant observations + subscribers[i].queue == start.queue
        decreases |subscribers[i].queue|
      {
        var s := subscribers[i];
        TakeConsistent(s, sequence);
        observations := observations + [s.queue[0]];
        assert start.delivered + observations == s.delivered + [s.queue[0]];
        Replace(i, s.(queue := s.queue[1..], delivered := s.delivered + [s.queue[0]]));
      }
      assert observations + [] == observations;
    }

    method Unsubscribe(i: nat)
      requires Valid() && i < |subscribers|
      modifies this`subscribers
      ensures Valid() && subscribers == old(subscribers)[i := Close(old(subscribers)[i])]
    {
      CloseConsistent(subscribers[i], sequence);
      Replace(i, Close(subscribers[i]));
    }
  }

  // ---------- whole histories of one subscriber ----------

  datatype Event = Published | Taken | Drained | Closed

  /** One subscriber over any sequence of publications and consumer calls; the pair holds it and the newest number. */
  function After(s: Subscriber, n: nat, events: seq<Event>): (Subscriber, nat)
    decreases |events|
  {
    if events == [] then (s, n)
    else
      match events[0]
      case Published => After(Offer(s, n + 1), n + 1, events[1..])
      case Taken => After(Take(s), n, events[1..])
      case Drained => After(Drain(s), n, events[1..])
      case Closed => After(Close(s), n, events[1..])
  }

  /** Sequence numbers up to `m` that the subscriber could have had and its consumer never saw. */
  function Missing(delivered: seq<nat>, since: nat, m: nat): set<nat> {
    set k: nat | since < k <= m && k !in delivered
  }

  lemma {:induction false} MissingCount(delivered: seq<nat>, since: nat, m: nat)
    requires since <= m && Increasing(delivered)
    requires forall i :: 0 <= i < |delivered| ==> since < delivered[i] <= m
    ensures |Missing(delivered, since, m)| == m - since - |delivered|
    decreases m - since
  {
    assert delivered == [] || since < delivered[0] <= m;
    if |delivered| > 0 && delivered[|delivered| - 1] == m {
      var before := delivered[..|delivered| - 1];
      MissingCount(before, since, m - 1);
      assert forall k: nat :: k in delivered <==> k == m || k in before;
      assert Missing(delivered, since, m) == Missing(before, since, m - 1);
    } else if m > since {
      MissingCount(delivered, since, m - 1);
      assert Missing(delivered, since, m) == Missing(delivered, since, m - 1) + {m};
    } else {
      assert Missing(delivered, since, m) == {};
    }
  }

  lemma {:induction false} HistoryConsistent(s: Subscriber, n: nat, events: seq<Event>)
    requires Consistent(s, n)
    ensures Consistent(After(s, n, events).0, After(s, n, events).1)
    decreases |events|
  {
    hide Consistent;
    if events != [] {
      match events[0]
      case Published => OfferConsistent(s, n); HistoryConsistent(Offer(s, n + 1), n + 1, events[1..]);
      case Taken => TakeConsistent(s, n); HistoryConsistent(Take(s), n, events[1..]);
      case Drained => DrainConsistent(s, n); HistoryConsistent(Drain(s), n, events[1..]);
      case Closed => CloseConsistent(s, n); HistoryConsistent(Close(s), n, events[1..]);
    }
  }

  /**
   * For an open subscription after any history: what it received was delivered, dropped or is still queued; the queue
   * is the newest observations; delivered numbers strictly increase; and exactly the dropped ones are missing.
   */
  lemma DeliveryExact(capacity: nat, n: nat, events: seq<Event>)
    requires capacity >= 1
    ensures var (s, m) := After(Fresh(capacity, n), n, events);
            s.active ==>
              && s.received == |s.delivered| + s.dropped + |s.queue| && |s.queue| <= s.capacity && |s.queue| <= m
              && s.queue == Upto(m, |s.queue|)
              && Increasing(s.delivered)
              && |Missing(s.delivered, s.since, m - |s.queue|)| == s.dropped
  {
    FreshConsistent(capacity, n);
    HistoryConsistent(Fresh(capacity, n), n, events);
    var (s, m) := After(Fresh(capacity, n), n, events);
    if s.active {
      MissingCount(s.delivered, s.since, m - |s.queue|);
    }
  }
}
