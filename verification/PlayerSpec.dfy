/** The video player as a state machine. Its two buffer deques are one list of (index, timestamp) pairs
    here; the class `VideoStream` keeps them apart and refines this. */
module PlayerSpec {
  import opened Types
  import opened Sequences
  import opened StableSort

  // A segment: its index and the timestamp of its message.
  type Item = (int, u64)

  const BUFFER_SIZE := 30
  const HALF_BUFFER := BUFFER_SIZE / 2

  datatype Player = Player(
    gossips: seq<Message>,       // announced, not yet asked for
    fetching: set<int>,          // indices the player believes are on their way
    buffer: seq<Item>,
    current: int,                // index of the last segment played
    stopped: nat,                // ticks since the last segment was played
    buffering: nat,              // ticks still to wait
    received: seq<Message>,      // every message so far
    inFlight: multiset<Item>,    // fetch tasks that have not reported back
    delivered: seq<Item>,        // every segment that arrived, in order of arrival
    left: seq<Item>,             // every segment taken off the buffer, in that order:
    played: seq<Item>,           // .. those shown
    skipped: seq<Item>)          // .. and those dropped to catch up

  const FRESH := Player([], {}, [], 0, 0, 0, [], multiset{}, [], [], [], [])

  function ItemOf(m: Message): Item { (m.count, m.timestamp) }

  function Items(ms: seq<Message>): (r: seq<Item>)
    ensures |r| == |ms|
  {
    if ms == [] then [] else [ItemOf(ms[0])] + Items(ms[1..])
  }

  datatype Event =
    | Gossip(message: Message)
    | Deliver(item: Item)
    | Tick

  function AddGossip(p: Player, m: Message): Player {
    p.(gossips := p.gossips + [m], received := p.received + [m])
  }

  /** A segment arrives: the pair goes behind every buffered pair whose index is not larger. */
  function AddSegment(p: Player, it: Item): Player {
    p.(fetching := p.fetching - {it.0}, buffer := Inserted(p.buffer, it),
       inFlight := p.inFlight - multiset{it}, delivered := p.delivered + [it])
  }

  /** Asks for the oldest announced segment. */
  function Fetch(p: Player): Player {
    if p.gossips == [] then p
    else
      var it := ItemOf(p.gossips[0]);
      p.(gossips := p.gossips[1..], fetching := p.fetching + {it.0}, inFlight := p.inFlight + multiset{it})
  }

  /** The first position from `k` on whose index is not below `bound`, or the last position. */
  function SkipTo(buffer: seq<Item>, bound: int, k: nat): (r: nat)
    requires k < |buffer|
    ensures k <= r < |buffer|
    ensures forall j | k <= j < r :: buffer[j].0 < bound
    ensures r == |buffer| - 1 || buffer[r].0 >= bound
    decreases |buffer| - k
  {
    if k + 1 < |buffer| && buffer[k].0 < bound then SkipTo(buffer, bound, k + 1) else k
  }

  function Newest(buffer: seq<Item>): int
    requires buffer != []
  {
    buffer[|buffer| - 1].0
  }

  /** The position the tick plays; everything before it is dropped. The subtractions are on `u64`. */
  function PlayIndex(buffer: seq<Item>): (r: nat)
    requires buffer != []
    ensures r < |buffer|
  {
    if |buffer| > 1 && buffer[0].0 < WrappingSub(Newest(buffer), BUFFER_SIZE)
    then SkipTo(buffer, WrappingSub(Newest(buffer), HALF_BUFFER), 0)
    else 0
  }

  predicate Plays(p: Player) {
    p.buffering == 0 && p.buffer != []
  }

  /** The clean-up of the fetch set: what the segment played has not made useless. */
  function NotBelow(fetching: set<int>, current: int): set<int> {
    set i | i in fetching && i >= current
  }

  function Advance(p: Player): Player {
    if p.buffering > 0 then p.(buffering := p.buffering - 1, stopped := p.stopped + 1)
    else if p.buffer == [] then p.(stopped := p.stopped + 1, buffering := 2)
    else
      var k := PlayIndex(p.buffer);
      p.(buffer := p.buffer[k + 1..], current := p.buffer[k].0, stopped := 0,
         fetching := NotBelow(p.fetching, p.buffer[k].0),
         left := p.left + p.buffer[..k + 1], played := p.played + [p.buffer[k]],
         skipped := p.skipped + p.buffer[..k])
  }

  function Step(p: Player, e: Event): Player {
    match e
    case Gossip(m) => AddGossip(p, m)
    case Deliver(it) => AddSegment(p, it)
    case Tick => Advance(Fetch(p))
  }

  /** Only a fetch that is under way can report back, and each reports once. */
  predicate Enabled(p: Player, e: Event) {
    e.Deliver? ==> e.item in p.inFlight
  }

  function Run(p: Player, es: seq<Event>): Player
    decreases |es|
  {
    if es == [] then p else Run(Step(p, es[0]), es[1..])
  }

  predicate AllEnabled(p: Player, es: seq<Event>)
    decreases |es|
  {
    es == [] || (Enabled(p, es[0]) && AllEnabled(Step(p, es[0]), es[1..]))
  }
}
