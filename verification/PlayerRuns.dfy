/** What every run of the player keeps, and when it plays in order. */
module PlayerRuns {
  import opened Types
  import opened Sequences
  import opened StableSort
  import opened PlayerSpec

  // ---------- the buffer, the fetch set, and nothing lost ----------

  ghost predicate BufferOk(buffer: seq<Item>) {
    SortedByKey(buffer) && forall it | it in buffer :: 0 <= it.0 < U64_RANGE
  }

  ghost function Indices(items: multiset<Item>): set<int> {
    set it | it in items :: it.0
  }

  /** Segments announced or under way. */
  ghost function ToCome(gossips: seq<Message>, inFlight: multiset<Item>): multiset<Item> {
    multiset(Items(gossips)) + inFlight
  }

  /** Segments buffered, played or skipped. */
  ghost function Here(buffer: seq<Item>, played: seq<Item>, skipped: seq<Item>): multiset<Item> {
    multiset(buffer) + multiset(played) + multiset(skipped)
  }

  /** Every message received is announced, under way, buffered, played or skipped: exactly once. */
  ghost predicate Conserved(p: Player) {
    && multiset(Items(p.received)) == ToCome(p.gossips, p.inFlight) + Here(p.buffer, p.played, p.skipped)
    && multiset(p.left) == multiset(p.played) + multiset(p.skipped)
  }

  /** A stall ends only after a multiple of three ticks. */
  ghost predicate StallLaw(p: Player) {
    p.buffering <= 2 && (p.stopped + p.buffering) % 3 == 0
  }

  /** Segments are asked for in the order they were announced: what waits is the tail of what came. */
  ghost predicate AskedInOrder(received: seq<Message>, gossips: seq<Message>) {
    |gossips| <= |received| && gossips == received[|received| - |gossips|..]
  }

  ghost predicate Inv(p: Player) {
    && BufferOk(p.buffer)
    && AskedInOrder(p.received, p.gossips)
    && (forall it | it in p.inFlight :: 0 <= it.0 < U64_RANGE)
    && p.fetching <= Indices(p.inFlight)
    && Conserved(p)
    && StallLaw(p)
  }

  lemma {:induction false} ItemsAppend(ms: seq<Message>, m: Message)
    ensures Items(ms + [m]) == Items(ms) + [ItemOf(m)]
  {
    if ms != [] {
      assert (ms + [m])[1..] == ms[1..] + [m];
      ItemsAppend(ms[1..], m);
    }
  }

  lemma {:induction false} InsertedContents(buffer: seq<Item>, it: Item)
    ensures multiset(Inserted(buffer, it)) == multiset(buffer) + multiset{it}
  {
    if buffer != [] && it.0 >= buffer[0].0 {
      InsertedContents(buffer[1..], it);
      assert buffer == [buffer[0]] + buffer[1..];
    }
  }

  lemma GossipConserves(p: Player, m: Message)
    requires Conserved(p)
    ensures Conserved(AddGossip(p, m))
  {
    ItemsAppend(p.gossips, m);
    ItemsAppend(p.received, m);
  }

  lemma Arrives(inFlight: multiset<Item>, it: Item, total: multiset<Item>, gossips: seq<Message>,
                buffer: seq<Item>, played: seq<Item>, skipped: seq<Item>)
    requires it in inFlight && total == ToCome(gossips, inFlight) + Here(buffer, played, skipped)
    ensures total == ToCome(gossips, inFlight - multiset{it}) + Here(Inserted(buffer, it), played, skipped)
  {
    InsertedContents(buffer, it);
    assert ToCome(gossips, inFlight) == ToCome(gossips, inFlight - multiset{it}) + multiset{it};
    assert Here(Inserted(buffer, it), played, skipped) == Here(buffer, played, skipped) + multiset{it};
  }

  lemma DeliverConserves(p: Player, it: Item)
    requires Conserved(p) && it in p.inFlight
    ensures Conserved(AddSegment(p, it))
  {
    Arrives(p.inFlight, it, multiset(Items(p.received)), p.gossips, p.buffer, p.played, p.skipped);
  }

  lemma FetchConserves(p: Player)
    requires Conserved(p)
    ensures Conserved(Fetch(p))
  {
    if p.gossips != [] {
      var it, q := ItemOf(p.gossips[0]), Fetch(p);
      assert Items(p.gossips) == [it] + Items(q.gossips);
      assert ToCome(p.gossips, p.inFlight) == ToCome(q.gossips, q.inFlight);
    }
  }

  /** Taking the first `k + 1` segments, playing the last of them and skipping the others, moves every
      segment to one place. */
  lemma Moved(buffer: seq<Item>, played: seq<Item>, skipped: seq<Item>, k: nat)
    requires k < |buffer|
    ensures Here(buffer[k + 1..], played + [buffer[k]], skipped + buffer[..k]) == Here(buffer, played, skipped)
    ensures multiset(buffer[..k + 1]) == multiset(buffer[..k]) + multiset{buffer[k]}
  {
    assert buffer == buffer[..k] + [buffer[k]] + buffer[k + 1..];
    assert buffer[..k + 1] == buffer[..k] + [buffer[k]];
  }

  lemma Departed(left: seq<Item>, buffer: seq<Item>, played: seq<Item>, skipped: seq<Item>, k: nat)
    requires k < |buffer| && multiset(left) == multiset(played) + multiset(skipped)
    ensures multiset(left + buffer[..k + 1]) == multiset(played + [buffer[k]]) + multiset(skipped + buffer[..k])
  {
    Moved(buffer, played, skipped, k);
  }

  lemma AdvanceConserves(p: Player)
    requires Conserved(p)
    ensures Conserved(Advance(p))
    ensures Plays(p) ==>
      |p.buffer| == |Advance(p).buffer| + 1 + (|Advance(p).skipped| - |p.skipped|)
  {
    if Plays(p) {
      var k := PlayIndex(p.buffer);
      Moved(p.buffer, p.played, p.skipped, k);
      Departed(p.left, p.buffer, p.played, p.skipped, k);
    }
  }

  lemma FetchUnderWay(p: Player)
    requires p.fetching <= Indices(p.inFlight)
    ensures Fetch(p).fetching <= Indices(Fetch(p).inFlight)
  {
    var q := Fetch(p);
    forall i | i in q.fetching ensures i in Indices(q.inFlight) {
      var x := if i in p.fetching then Reported(p.inFlight, i) else ItemOf(p.gossips[0]);
      assert x in q.inFlight;
    }
  }

  ghost function Reported(items: multiset<Item>, i: int): (x: Item)
    requires i in Indices(items)
    ensures x in items && x.0 == i
  {
    var x :| x in items && x.0 == i; x
  }

  lemma DeliverUnderWay(p: Player, it: Item)
    requires p.fetching <= Indices(p.inFlight) && it in p.inFlight
    ensures AddSegment(p, it).fetching <= Indices(AddSegment(p, it).inFlight)
  {
    var q := AddSegment(p, it);
    forall i | i in q.fetching ensures i in Indices(q.inFlight) {
      assert Reported(p.inFlight, i) in q.inFlight;
    }
  }

  /** `fetching` stays within the fetches under way; a playing tick drops from it exactly the indices
      below the segment played. */
  lemma FetchingUnderWay(p: Player, e: Event)
    requires p.fetching <= Indices(p.inFlight) && Enabled(p, e)
    ensures Step(p, e).fetching <= Indices(Step(p, e).inFlight)
    ensures e.Tick? && Plays(p) ==>
      forall i :: i in Step(p, e).fetching <==> i in Fetch(p).fetching && i >= Step(p, e).current
  {
    match e
    case Gossip(_) =>
    case Deliver(it) => DeliverUnderWay(p, it);
    case Tick => FetchUnderWay(p);
  }

  lemma BufferKept(p: Player, e: Event)
    requires BufferOk(p.buffer) && Enabled(p, e) && forall it | it in p.inFlight :: 0 <= it.0 < U64_RANGE
    ensures BufferOk(Step(p, e).buffer) && forall it | it in Step(p, e).inFlight :: 0 <= it.0 < U64_RANGE
  {
    if e.Deliver? { InsertedSorted(p.buffer, e.item); }
  }

  lemma OrderKept(p: Player, e: Event)
    requires AskedInOrder(p.received, p.gossips)
    ensures AskedInOrder(Step(p, e).received, Step(p, e).gossips)
  {
    match e
    case Gossip(m) => TailGrows(p.received, p.gossips, m);
    case Deliver(_) =>
    case Tick => if p.gossips != [] { TailShrinks(p.received, p.gossips); }
  }

  lemma TailGrows(all: seq<Message>, tail: seq<Message>, m: Message)
    requires AskedInOrder(all, tail)
    ensures AskedInOrder(all + [m], tail + [m])
  {
  }

  lemma TailShrinks(all: seq<Message>, tail: seq<Message>)
    requires AskedInOrder(all, tail) && tail != []
    ensures AskedInOrder(all, tail[1..])
  {
  }

  lemma StallKept(p: Player, e: Event)
    requires StallLaw(p)
    ensures StallLaw(Step(p, e))
  {
    if e.Tick? { AdvanceStalls(Fetch(p)); }
  }

  lemma AdvanceStalls(p: Player)
    requires StallLaw(p)
    ensures StallLaw(Advance(p))
  {
  }

  lemma StepKeeps(p: Player, e: Event)
    requires Inv(p) && Enabled(p, e)
    ensures Inv(Step(p, e))
  {
    BufferKept(p, e);
    FetchingUnderWay(p, e);
    OrderKept(p, e);
    StallKept(p, e);
    match e
    case Gossip(m) => GossipConserves(p, m);
    case Deliver(it) => DeliverConserves(p, it);
    case Tick => FetchConserves(p); AdvanceConserves(Fetch(p));
  }

  /** Over every run: the buffer is sorted, segments are asked for in the order announced, `fetching`
      lies within the fetches under way, no message is lost or shown twice, and the stall law holds. */
  lemma {:induction false} RunKeeps(p: Player, es: seq<Event>)
    requires Inv(p) && AllEnabled(p, es)
    ensures Inv(Run(p, es))
    decreases |es|
  {
    if es != [] {
      StepKeeps(p, es[0]);
      RunKeeps(Step(p, es[0]), es[1..]);
    }
  }

  lemma Reachable(es: seq<Event>)
    requires AllEnabled(FRESH, es)
    ensures Inv(Run(FRESH, es))
  {
    FreshInv();
    RunKeeps(FRESH, es);
  }

  lemma FreshInv()
    ensures Inv(FRESH)
  {
    assert Indices(multiset{}) == {};
  }

  // ---------- stalls ----------

  /** Ticks without playback at the end of the run, counted from the events alone. */
  ghost function StallLength(p: Player, es: seq<Event>, n: nat): nat
    decreases |es|
  {
    if es == [] then n
    else StallLength(Step(p, es[0]), es[1..], if !es[0].Tick? then n else if Plays(p) then 0 else n + 1)
  }

  lemma {:induction false} StoppedCountsStall(p: Player, es: seq<Event>)
    ensures Run(p, es).stopped == StallLength(p, es, p.stopped)
    decreases |es|
  {
    if es != [] { StoppedCountsStall(Step(p, es[0]), es[1..]); }
  }

  /** Whenever a tick is about to play, the stall it ends lasted a multiple of three ticks, whatever
      arrived in between. */
  lemma StallsComeInThrees(es: seq<Event>)
    requires AllEnabled(FRESH, es) && Plays(Run(FRESH, es))
    ensures StallLength(FRESH, es, 0) % 3 == 0
  {
    FreshInv();
    RunKeeps(FRESH, es);
    StoppedCountsStall(FRESH, es);
  }

  // ---------- catching up ----------

  /** What one playing tick takes, in every case of the two wrapping subtractions. */
  lemma CatchUp(buffer: seq<Item>)
    requires BufferOk(buffer) && buffer != []
    ensures var b, k := Newest(buffer), PlayIndex(buffer);
      && (b >= 30 ==> buffer[k].0 >= b - 30)
      && (k > 0 && b >= 15 ==> buffer[k].0 >= b - 15 && forall j | 0 <= j < k :: buffer[j].0 < b - 15)
      && (b >= 30 ==> (k > 0 <==> buffer[0].0 < b - 30))
      && (|buffer| > 1 && 15 <= b < 30 ==>
            buffer[k].0 >= b - 15 && forall j | 0 <= j < k :: buffer[j].0 < b - 15)
      && (b < 15 ==> k == |buffer| - 1)
  {
    assert forall j | 0 <= j < |buffer| :: buffer[j] in buffer;
  }

  lemma TickTakes(p: Player)
    requires Plays(p)
    ensures var q, k := Step(p, Tick), PlayIndex(p.buffer);
      && p.buffer == p.buffer[..k] + [p.buffer[k]] + q.buffer
      && q.played == p.played + [p.buffer[k]] && q.skipped == p.skipped + p.buffer[..k]
      && q.current == p.buffer[k].0
  {
    var k := PlayIndex(p.buffer);
    assert p.buffer == p.buffer[..k] + [p.buffer[k]] + p.buffer[k + 1..];
  }

  /** A playing tick splits the buffer into the segments it drops, the one it plays, and the rest. With
      a newest index of at least 30 what it plays is at most 30 behind the newest, and if it drops any
      the head was more than 30 behind and it plays the first one at most 15 behind. */
  lemma PlayingTick(p: Player) returns (k: nat)
    requires BufferOk(p.buffer) && Plays(p)
    ensures k < |p.buffer|
    ensures var q := Step(p, Tick);
      && p.buffer == p.buffer[..k] + [p.buffer[k]] + q.buffer
      && q.played == p.played + [p.buffer[k]] && q.skipped == p.skipped + p.buffer[..k]
      && q.current == p.buffer[k].0
    ensures var b := Newest(p.buffer); b >= 30 ==>
      && p.buffer[k].0 >= b - 30
      && (k > 0 <==> p.buffer[0].0 < b - 30)
      && (k > 0 ==> p.buffer[k].0 >= b - 15 && forall j | 0 <= j < k :: p.buffer[j].0 < b - 15)
  {
    k := PlayIndex(p.buffer);
    TickTakes(p);
    CatchUp(p.buffer);
  }

  /** The rule without wrap-around: skip only when the head is more than a buffer behind. */
  function IntendedIndex(buffer: seq<Item>): nat
    requires buffer != []
  {
    if buffer[0].0 + 30 < Newest(buffer) then SkipTo(buffer, Newest(buffer) - 15, 0) else 0
  }

  /** The tick follows that rule exactly when one segment is buffered, the newest index is at least 30,
      or it is at least 15 with the oldest at most 15 behind. Otherwise segments are dropped for no
      reason: with a newest index below 15, all but the newest. */
  lemma SkipsAsIntendedExactlyWhen(buffer: seq<Item>)
    requires BufferOk(buffer) && buffer != []
    ensures PlayIndex(buffer) == IntendedIndex(buffer) <==>
      || |buffer| == 1
      || Newest(buffer) >= 30
      || (Newest(buffer) >= 15 && buffer[0].0 >= Newest(buffer) - 15)
  {
    CatchUp(buffer);
    assert buffer[0] in buffer && buffer[|buffer| - 1] in buffer;
  }

  /** A start of a stream on which the tick drops a segment it should play: two segments are announced,
      fetched and delivered in order, and the first is skipped. */
  lemma FirstSegmentDropped(t1: u64, t2: u64)
    ensures var i1: Item, i2: Item := (1, t1), (2, t2);
      var es := [Gossip(Message(1, t1, [])), Gossip(Message(2, t2, [])), Tick, Tick,
                 Deliver(i1), Deliver(i2), Tick, Tick];
      DropsFirst(FRESH, es, i1, i2) && IntendedIndex([i1, i2]) == 0
  {
    var i1: Item, i2: Item := (1, t1), (2, t2);
    var m1, m2 := Message(1, t1, []), Message(2, t2, []);
    var p1 := Step(FRESH, Gossip(m1));
    var rest := [Tick, Tick, Deliver(i1), Deliver(i2), Tick, Tick];
    FetchFirst(Step(p1, Gossip(m2)), m1, m2);
    assert Step(p1, Gossip(m2)).gossips == [m1, m2];
    OneBefore(p1, Gossip(m2), rest, i1, i2);
    OneBefore(FRESH, Gossip(m1), [Gossip(m2)] + rest, i1, i2);
    assert [Gossip(m1)] + ([Gossip(m2)] + rest) ==
      [Gossip(m1), Gossip(m2), Tick, Tick, Deliver(i1), Deliver(i2), Tick, Tick];
  }

  /** The events can happen, and their last one is a tick that finds these two segments buffered, drops
      the first and plays the second; nothing was played or dropped before. */
  ghost predicate DropsFirst(p: Player, es: seq<Event>, i1: Item, i2: Item) {
    && es != [] && es[|es| - 1] == Tick && AllEnabled(p, es)
    && Plays(Run(p, es[..|es| - 1])) && Run(p, es[..|es| - 1]).buffer == [i1, i2]
    && Run(p, es).played == p.played + [i2] && Run(p, es).skipped == p.skipped + [i1]
  }

  lemma OneBefore(p: Player, e: Event, es: seq<Event>, i1: Item, i2: Item)
    requires Enabled(p, e) && DropsFirst(Step(p, e), es, i1, i2)
    requires Step(p, e).played == p.played && Step(p, e).skipped == p.skipped
    ensures DropsFirst(p, [e] + es, i1, i2)
  {
    var all, front := [e] + es, [e] + es[..|es| - 1];
    assert all[1..] == es && all[..|all| - 1] == front && front[1..] == es[..|es| - 1];
  }

  lemma FetchFirst(p: Player, m1: Message, m2: Message)
    requires p.gossips == [m1, m2] && p.buffer == [] && p.buffering == 0 && m1.count == 1 && m2.count == 2
    ensures DropsFirst(p, [Tick, Tick, Deliver(ItemOf(m1)), Deliver(ItemOf(m2)), Tick, Tick], ItemOf(m1), ItemOf(m2))
  {
    var i1, i2 := ItemOf(m1), ItemOf(m2);
    var rest := [Tick, Deliver(i1), Deliver(i2), Tick, Tick];
    FetchSecond(Step(p, Tick), i1, m2);
    OneBefore(p, Tick, rest, i1, i2);
    assert [Tick] + rest == [Tick, Tick, Deliver(i1), Deliver(i2), Tick, Tick];
  }

  lemma FetchSecond(p: Player, i1: Item, m2: Message)
    requires p.gossips == [m2] && p.buffer == [] && p.buffering == 2 && i1 in p.inFlight
    requires i1.0 == 1 && m2.count == 2
    ensures DropsFirst(p, [Tick, Deliver(i1), Deliver(ItemOf(m2)), Tick, Tick], i1, ItemOf(m2))
  {
    var i2 := ItemOf(m2);
    var rest := [Deliver(i1), Deliver(i2), Tick, Tick];
    BothArrive(Step(p, Tick), i1, i2);
    OneBefore(p, Tick, rest, i1, i2);
    assert [Tick] + rest == [Tick, Deliver(i1), Deliver(i2), Tick, Tick];
  }

  lemma InsertTwo(i1: Item, i2: Item)
    requires i1.0 <= i2.0
    ensures Inserted([], i1) == [i1] && Inserted([i1], i2) == [i1, i2]
  {
    assert [i1][1..] == [];
  }

  lemma BothArrive(p: Player, i1: Item, i2: Item)
    requires p.buffer == [] && p.buffering == 1 && i1 in p.inFlight && i2 in p.inFlight
    requires i1.0 == 1 && i2.0 == 2
    ensures DropsFirst(p, [Deliver(i1), Deliver(i2), Tick, Tick], i1, i2)
  {
    var q := Step(p, Deliver(i1));
    InsertTwo(i1, i2);
    LastTicks(Step(q, Deliver(i2)), i1, i2);
    OneBefore(q, Deliver(i2), [Tick, Tick], i1, i2);
    OneBefore(p, Deliver(i1), [Deliver(i2)] + [Tick, Tick], i1, i2);
    assert [Deliver(i1)] + ([Deliver(i2)] + [Tick, Tick]) == [Deliver(i1), Deliver(i2), Tick, Tick];
  }

  lemma LastTicks(p: Player, i1: Item, i2: Item)
    requires p.buffer == [i1, i2] && p.buffering == 1 && i1.0 == 1 && i2.0 == 2
    ensures DropsFirst(p, [Tick, Tick], i1, i2)
  {
    LastTick(Step(p, Tick), i1, i2);
    OneBefore(p, Tick, [Tick], i1, i2);
    assert [Tick] + [Tick] == [Tick, Tick];
  }

  lemma LastTick(p: Player, i1: Item, i2: Item)
    requires p.buffer == [i1, i2] && p.buffering == 0 && i1.0 == 1 && i2.0 == 2
    ensures DropsFirst(p, [Tick], i1, i2)
  {
    CatchUp(p.buffer);
    TickTakes(p);
    assert p.buffer[..1] == [i1];
    var es: seq<Event> := [Tick];
    assert es[..0] == [] && es[1..] == [];
    assert Run(p, es) == Step(p, Tick);
  }

  // ---------- order ----------

  /** Everything that left the buffer, then everything still in it. */
  function Line(p: Player): seq<Item> {
    p.left + p.buffer
  }

  /** No segment of the run arrives after a later one was played. */
  predicate NoneLate(p: Player, es: seq<Event>)
    decreases |es|
  {
    es == [] || ((es[0].Deliver? ==> es[0].item.0 >= p.current) && NoneLate(Step(p, es[0]), es[1..]))
  }

  ghost predicate LineOk(p: Player) {
    && SortedByKey(p.buffer)
    && p.current == if p.left == [] then 0 else p.left[|p.left| - 1].0
  }

  ghost predicate IndicesNatural(es: seq<Event>) {
    forall e | e in es && e.Deliver? :: e.item.0 >= 0
  }

  lemma JoinSorted(a: seq<Item>, b: seq<Item>)
    requires SortedByKey(b)
    ensures SortedByKey(a + b) <==>
      SortedByKey(a) && (a != [] && b != [] ==> a[|a| - 1].0 <= b[0].0)
  {
    var c := a + b;
    if SortedByKey(c) {
      assert forall i | 0 <= i < |a| :: c[i] == a[i];
      if a != [] && b != [] { assert c[|a| - 1] == a[|a| - 1] && c[|a|] == b[0]; }
    } else if SortedByKey(a) && (a != [] && b != [] ==> a[|a| - 1].0 <= b[0].0) {
      forall i, j | 0 <= i < j < |c| ensures c[i].0 <= c[j].0 {
        if i < |a| <= j { assert c[i].0 <= a[|a| - 1].0 && b[0].0 <= c[j].0; }
      }
    }
  }

  lemma TickKeepsLine(p: Player)
    ensures Line(Step(p, Tick)) == Line(p)
  {
    AdvanceKeepsLine(Fetch(p));
  }

  lemma AdvanceKeepsLine(p: Player)
    ensures Line(Advance(p)) == Line(p)
  {
    if Plays(p) { Resplit(p.left, p.buffer, PlayIndex(p.buffer) + 1); }
  }

  lemma Resplit(left: seq<Item>, buffer: seq<Item>, k: nat)
    requires k <= |buffer|
    ensures left + buffer[..k] + buffer[k..] == left + buffer
  {
    assert buffer == buffer[..k] + buffer[k..];
  }

  lemma TickKeepsLineOk(p: Player)
    requires LineOk(p)
    ensures LineOk(Step(p, Tick))
  {
  }

  lemma StepOrder(p: Player, e: Event)
    requires LineOk(p) && (e.Deliver? ==> e.item.0 >= 0)
    ensures LineOk(Step(p, e))
    ensures SortedByKey(Line(Step(p, e))) <==> SortedByKey(Line(p)) && (e.Deliver? ==> e.item.0 >= p.current)
  {
    match e
    case Gossip(_) =>
    case Deliver(it) =>
      InsertedSorted(p.buffer, it);
      JoinSorted(p.left, p.buffer);
      JoinSorted(p.left, Inserted(p.buffer, it));
      assert Inserted(p.buffer, it)[0] == if p.buffer == [] || it.0 < p.buffer[0].0 then it else p.buffer[0];
    case Tick => TickKeepsLine(p); TickKeepsLineOk(p);
  }

  /** Segments leave the buffer in nondecreasing order, and keep that order with what is buffered, if
      and only if none arrives below the segment then playing. Wrapping changes nothing here. */
  lemma {:induction false} InOrderExactlyWhenNoneLate(p: Player, es: seq<Event>)
    requires LineOk(p) && IndicesNatural(es)
    ensures LineOk(Run(p, es))
    ensures SortedByKey(Line(Run(p, es))) <==> SortedByKey(Line(p)) && NoneLate(p, es)
    decreases |es|
  {
    if es != [] {
      assert es[0] in es && forall e | e in es[1..] :: e in es;
      StepOrder(p, es[0]);
      InOrderExactlyWhenNoneLate(Step(p, es[0]), es[1..]);
    }
  }

  /** No index twice. */
  ghost predicate IndexOnce(items: seq<Item>) {
    forall k: int :: |Filter(items, WithKey<u64>(k))| <= 1
  }

  ghost predicate Increasing(items: seq<Item>) {
    forall i, j | 0 <= i < j < |items| :: items[i].0 < items[j].0
  }

  lemma FilterHead(items: seq<Item>, k: int)
    requires items != []
    ensures |Filter(items, WithKey<u64>(k))| ==
      (if items[0].0 == k then 1 else 0) + |Filter(items[1..], WithKey<u64>(k))|
  {
  }

  lemma {:induction false} IncreasingIsOnce(items: seq<Item>)
    requires Increasing(items)
    ensures SortedByKey(items) && IndexOnce(items)
  {
    if items != [] {
      IncreasingIsOnce(items[1..]);
      forall k: int ensures |Filter(items, WithKey<u64>(k))| <= 1 {
        FilterHead(items, k);
        if k == items[0].0 { NoneWithKey(items[1..], k); }
      }
    }
  }

  lemma {:induction false} SortedOnceIsIncreasing(items: seq<Item>)
    requires SortedByKey(items) && IndexOnce(items)
    ensures Increasing(items)
  {
    if items != [] {
      var rest := items[1..];
      forall k: int ensures |Filter(rest, WithKey<u64>(k))| <= 1 { FilterHead(items, k); }
      SortedOnceIsIncreasing(rest);
      FilterHead(items, items[0].0);
      assert Filter(rest, WithKey<u64>(items[0].0)) == [];
      forall j | 0 <= j < |rest| ensures items[0].0 < rest[j].0 {
        FilterMember(rest, WithKey<u64>(items[0].0), rest[j]);
      }
    }
  }

  /** The line holds exactly the delivered segments, index by index. */
  ghost predicate LineIsDelivered(p: Player) {
    forall k: int :: |Filter(Line(p), WithKey<u64>(k))| == |Filter(p.delivered, WithKey<u64>(k))|
  }

  lemma StepLine(p: Player, e: Event)
    requires SortedByKey(p.buffer) && LineIsDelivered(p)
    ensures SortedByKey(Step(p, e).buffer) && LineIsDelivered(Step(p, e))
  {
    match e
    case Gossip(_) =>
    case Deliver(it) =>
      InsertedSorted(p.buffer, it);
      forall k: int ensures |Filter(Line(Step(p, e)), WithKey<u64>(k))| == |Filter(p.delivered + [it], WithKey<u64>(k))| {
        InsertedFilter(p.buffer, it, k);
        FilterAppend(p.left, Inserted(p.buffer, it), WithKey<u64>(k));
        FilterAppend(p.left, p.buffer, WithKey<u64>(k));
        FilterAppend(p.buffer, [it], WithKey<u64>(k));
        FilterAppend(p.delivered, [it], WithKey<u64>(k));
      }
    case Tick => TickKeepsLine(p);
  }

  lemma {:induction false} RunLine(p: Player, es: seq<Event>)
    requires SortedByKey(p.buffer) && LineIsDelivered(p)
    ensures LineIsDelivered(Run(p, es))
    decreases |es|
  {
    if es != [] {
      StepLine(p, es[0]);
      RunLine(Step(p, es[0]), es[1..]);
    }
  }

  /** From a fresh player: strictly increasing if and only if none is late and no index arrives twice. */
  lemma IncreasingExactlyWhen(es: seq<Event>)
    requires IndicesNatural(es)
    ensures Increasing(Line(Run(FRESH, es))) <==> NoneLate(FRESH, es) && IndexOnce(Run(FRESH, es).delivered)
    ensures NoneLate(FRESH, es) ==> SortedByKey(Run(FRESH, es).left)
  {
    InOrderExactlyWhenNoneLate(FRESH, es);
    RunLine(FRESH, es);
    var p := Run(FRESH, es);
    if Increasing(Line(p)) { IncreasingIsOnce(Line(p)); }
    if SortedByKey(Line(p)) && IndexOnce(Line(p)) { SortedOnceIsIncreasing(Line(p)); }
    JoinSorted(p.left, p.buffer);
  }
}
