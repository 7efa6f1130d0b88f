/** When the player must act and when it must not: what every tick asks for, and what may take a
    segment off the buffer. */
module PlayerProgress {
  import opened Types
  import opened Sequences
  import opened StableSort
  import opened PlayerSpec
  import PlayerRuns

  function Announced(es: seq<Event>): seq<Message> {
    if es == [] then [] else AnnouncedBy(es[0]) + Announced(es[1..])
  }

  function AnnouncedBy(e: Event): seq<Message> {
    if e.Gossip? then [e.message] else []
  }

  function Deliveries(es: seq<Event>): seq<Item> {
    if es == [] then [] else DeliveredBy(es[0]) + Deliveries(es[1..])
  }

  function DeliveredBy(e: Event): seq<Item> {
    if e.Deliver? then [e.item] else []
  }

  function Ticks(es: seq<Event>): nat {
    if es == [] then 0 else (if es[0].Tick? then 1 else 0) + Ticks(es[1..])
  }

  // ---------- asking ----------

  /** Each tick takes exactly the head of the queue, when there is one, and starts its fetch; nothing
      else takes from the queue, and only an arrival ends a fetch. */
  lemma StepAsks(p: Player, e: Event)
    ensures var q := Step(p, e);
      match e
      case Gossip(m) =>
        && q.gossips == p.gossips + [m] && q.received == p.received + [m]
        && q.inFlight == p.inFlight && q.delivered == p.delivered
      case Deliver(it) =>
        && q.gossips == p.gossips && q.received == p.received
        && q.inFlight == p.inFlight - multiset{it} && q.delivered == p.delivered + [it]
      case Tick =>
        && q.received == p.received && q.delivered == p.delivered
        && (p.gossips == [] ==> q.gossips == [] && q.inFlight == p.inFlight)
        && (p.gossips != [] ==>
              && p.gossips == [p.gossips[0]] + q.gossips
              && q.inFlight == p.inFlight + multiset{(p.gossips[0].count, p.gossips[0].timestamp)})
  {
  }

  /** Exactly which indices the player believes are on their way. */
  lemma StepFetching(p: Player, e: Event)
    ensures var was, now := p.fetching, Step(p, e).fetching;
      match e
      case Gossip(_) => now == was
      case Deliver(it) => forall i :: i in now <==> i in was && i != it.0
      case Tick => forall i :: i in now <==>
        && (i in was || (p.gossips != [] && i == p.gossips[0].count))
        && (p.buffering == 0 && p.buffer != [] ==> i >= Step(p, e).current)
  {
  }

  /** The messages a run asks for, in order, from the queue and the events alone: at each tick the oldest
      one that waits. */
  function Asked(queue: seq<Message>, es: seq<Event>): seq<Message>
    decreases |es|
  {
    if es == [] then [] else AskedBy(queue, es[0]) + Asked(QueueAfter(queue, es[0]), es[1..])
  }

  function AskedBy(queue: seq<Message>, e: Event): (r: seq<Message>)
    ensures r <= queue
  {
    if e.Tick? && queue != [] then queue[..1] else []
  }

  function QueueAfter(queue: seq<Message>, e: Event): (r: seq<Message>)
    ensures AskedBy(queue, e) + r == queue + AnnouncedBy(e)
  {
    queue[|AskedBy(queue, e)|..] + AnnouncedBy(e)
  }

  lemma StepQueue(p: Player, e: Event)
    ensures Step(p, e).gossips == QueueAfter(p.gossips, e)
  {
    if e.Tick? && p.gossips != [] {
      assert p.gossips[1..] + [] == p.gossips[1..];
    } else {
      assert p.gossips[0..] == p.gossips && p.gossips + [] == p.gossips;
    }
  }

  lemma StepFlight(p: Player, e: Event)
    requires Enabled(p, e)
    ensures Step(p, e).inFlight + multiset(DeliveredBy(e)) == p.inFlight + multiset(Items(AskedBy(p.gossips, e)))
  {
    StepAsks(p, e);
    if e.Tick? && p.gossips != [] { assert AskedBy(p.gossips, e) == [p.gossips[0]]; }
  }

  /** Over every run: what was asked for, then what still waits, is what waited and what was announced,
      in that order. */
  lemma {:induction false} NothingPassedOver(p: Player, es: seq<Event>)
    ensures Asked(p.gossips, es) + Run(p, es).gossips == p.gossips + Announced(es)
    decreases |es|
  {
    if es != [] {
      StepQueue(p, es[0]);
      NothingPassedOver(Step(p, es[0]), es[1..]);
      Regroup(AskedBy(p.gossips, es[0]), Asked(Step(p, es[0]).gossips, es[1..]), Run(p, es).gossips,
              Step(p, es[0]).gossips, Announced(es[1..]), p.gossips, AnnouncedBy(es[0]));
    }
  }

  lemma Regroup<T>(a: seq<T>, b: seq<T>, c: seq<T>, x: seq<T>, y: seq<T>, u: seq<T>, v: seq<T>)
    requires b + c == x + y && a + x == u + v
    ensures (a + b) + c == u + (v + y)
  {
    assert (a + b) + c == a + (b + c) == (a + x) + y;
  }

  /** A run with enough ticks asks for all that waited, any other asks once at each tick. */
  lemma {:induction false} AskedCount(queue: seq<Message>, es: seq<Event>)
    ensures |Asked(queue, es)| <= Ticks(es)
    ensures |Asked(queue, es)| < |queue| ==> |Asked(queue, es)| == Ticks(es)
    decreases |es|
  {
    if es != [] {
      assert |AskedBy(queue, es[0])| + |QueueAfter(queue, es[0])| == |queue| + |AnnouncedBy(es[0])|;
      AskedCount(QueueAfter(queue, es[0]), es[1..]);
    }
  }

  lemma {:induction false} ItemsJoin(ms: seq<Message>, ns: seq<Message>)
    ensures Items(ms + ns) == Items(ms) + Items(ns)
  {
    if ms == [] {
      assert ms + ns == ns;
    } else {
      assert (ms + ns)[1..] == ms[1..] + ns;
      ItemsJoin(ms[1..], ns);
    }
  }

  /** Each message asked for is in flight until it arrives, and nothing else is: counted with
      repetitions, over every run. */
  lemma {:induction false} FetchesAccounted(p: Player, es: seq<Event>)
    requires AllEnabled(p, es)
    ensures Run(p, es).inFlight + multiset(Deliveries(es)) == p.inFlight + multiset(Items(Asked(p.gossips, es)))
    decreases |es|
  {
    if es != [] {
      var q := Step(p, es[0]);
      StepQueue(p, es[0]);
      StepFlight(p, es[0]);
      FetchesAccounted(q, es[1..]);
      ItemsJoin(AskedBy(p.gossips, es[0]), Asked(q.gossips, es[1..]));
      AddUp(Run(p, es).inFlight, Deliveries(es[1..]), q.inFlight, Items(Asked(q.gossips, es[1..])),
            DeliveredBy(es[0]), p.inFlight, Items(AskedBy(p.gossips, es[0])));
    }
  }

  lemma AddUp(f: multiset<Item>, d: seq<Item>, q: multiset<Item>, a: seq<Item>,
              d0: seq<Item>, p: multiset<Item>, a0: seq<Item>)
    requires f + multiset(d) == q + multiset(a) && q + multiset(d0) == p + multiset(a0)
    ensures f + multiset(d0 + d) == p + multiset(a0 + a)
  {
    assert f + multiset(d0 + d) == (f + multiset(d)) + multiset(d0);
    assert p + multiset(a0 + a) == (p + multiset(a0)) + multiset(a);
  }

  /** A message at position `n` of the queue is asked for at the tick after `n` others, not sooner and not
      later: until then it moves up one place a tick, after that its segment is in flight or has been
      delivered. */
  lemma AskedInTime(p: Player, es: seq<Event>, n: nat)
    requires AllEnabled(p, es) && n < |p.gossips|
    ensures Ticks(es) <= n ==>
      n - Ticks(es) < |Run(p, es).gossips| && Run(p, es).gossips[n - Ticks(es)] == p.gossips[n]
    ensures Ticks(es) > n ==>
      ItemOf(p.gossips[n]) in Run(p, es).inFlight || ItemOf(p.gossips[n]) in Deliveries(es)
  {
    AskedCount(p.gossips, es);
    NothingPassedOver(p, es);
    NthOfQueue(p.gossips, Announced(es), Asked(p.gossips, es), Run(p, es).gossips, n);
    if Ticks(es) > n {
      ItemsAt(Asked(p.gossips, es), n);
      FetchesAccounted(p, es);
      assert ItemOf(p.gossips[n]) in Items(Asked(p.gossips, es));
      assert ItemOf(p.gossips[n]) in Run(p, es).inFlight + multiset(Deliveries(es));
    }
  }

  lemma NthOfQueue<T>(queue: seq<T>, more: seq<T>, gone: seq<T>, rest: seq<T>, n: nat)
    requires gone + rest == queue + more && n < |queue|
    ensures n < |gone| ==> gone[n] == queue[n]
    ensures n >= |gone| ==> n - |gone| < |rest| && rest[n - |gone|] == queue[n]
  {
    assert (gone + rest)[n] == (queue + more)[n];
    assert |gone + rest| == |queue + more|;
  }

  lemma {:induction false} ItemsAt(ms: seq<Message>, n: nat)
    requires n < |ms|
    ensures Items(ms)[n] == ItemOf(ms[n])
  {
    if n > 0 { ItemsAt(ms[1..], n - 1); }
  }

  // ---------- taking off the buffer ----------

  /** Ticks of the run that find the player neither waiting nor without a segment. */
  function PlayingTicks(p: Player, es: seq<Event>): nat
    decreases |es|
  {
    if es == [] then 0
    else (if es[0].Tick? && p.buffering == 0 && p.buffer != [] then 1 else 0) + PlayingTicks(Step(p, es[0]), es[1..])
  }

  ghost predicate SameShown(p: Player, q: Player) {
    q.left == p.left && q.played == p.played && q.skipped == p.skipped && q.current == p.current
  }

  /** Only a tick that plays takes anything off the buffer, and it plays one segment. */
  lemma StepTakes(p: Player, e: Event)
    ensures var q := Step(p, e);
      if e.Tick? && p.buffering == 0 && p.buffer != [] then |q.played| == |p.played| + 1
      else SameShown(p, q) && (!e.Deliver? ==> q.buffer == p.buffer)
  {
  }

  /** A stretch of any length in which no tick plays: nothing is shown, dropped or taken off, and the
      buffer gains each segment delivered, in index order and behind those of its own index. */
  lemma {:induction false} NothingTakenBetween(p: Player, es: seq<Event>)
    requires SortedByKey(p.buffer) && PlayingTicks(p, es) == 0
    ensures SameShown(p, Run(p, es))
    ensures SortedByKey(Run(p, es).buffer) && StablePermutation(p.buffer + Deliveries(es), Run(p, es).buffer)
    decreases |es|
  {
    if es == [] {
      assert p.buffer + Deliveries(es) == p.buffer;
    } else {
      StepTakes(p, es[0]);
      StepBuffer(p, es[0], Deliveries(es[1..]));
      NothingTakenBetween(Step(p, es[0]), es[1..]);
      Chained(p.buffer + Deliveries(es), Step(p, es[0]).buffer + Deliveries(es[1..]), Run(p, es).buffer);
    }
  }

  lemma Chained(a: seq<Item>, b: seq<Item>, c: seq<Item>)
    requires StablePermutation(a, b) && StablePermutation(b, c)
    ensures StablePermutation(a, c)
  {
  }

  lemma StepBuffer(p: Player, e: Event, rest: seq<Item>)
    requires SortedByKey(p.buffer) && !(e.Tick? && p.buffering == 0 && p.buffer != [])
    ensures SortedByKey(Step(p, e).buffer)
    ensures StablePermutation(p.buffer + (DeliveredBy(e) + rest), Step(p, e).buffer + rest)
  {
    StepTakes(p, e);
    if e.Deliver? {
      DeliveredInto(p.buffer, e.item, rest);
    } else {
      assert DeliveredBy(e) + rest == rest;
    }
  }

  lemma DeliveredInto(buffer: seq<Item>, it: Item, rest: seq<Item>)
    requires SortedByKey(buffer)
    ensures SortedByKey(Inserted(buffer, it))
    ensures StablePermutation(buffer + ([it] + rest), Inserted(buffer, it) + rest)
  {
    InsertedSorted(buffer, it);
    forall k: int
      ensures Filter(buffer + ([it] + rest), WithKey<u64>(k)) == Filter(Inserted(buffer, it) + rest, WithKey<u64>(k))
    {
      InsertedFilter(buffer, it, k);
      assert buffer + ([it] + rest) == (buffer + [it]) + rest;
      FilterAppend(buffer + [it], rest, WithKey<u64>(k));
      FilterAppend(Inserted(buffer, it), rest, WithKey<u64>(k));
    }
  }

  /** One segment is shown at each playing tick, none at any other time. */
  lemma {:induction false} PlayedCount(p: Player, es: seq<Event>)
    ensures |Run(p, es).played| == |p.played| + PlayingTicks(p, es)
    decreases |es|
  {
    if es != [] {
      StepTakes(p, es[0]);
      PlayedCount(Step(p, es[0]), es[1..]);
    }
  }
}
