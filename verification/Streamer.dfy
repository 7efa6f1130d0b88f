/** The streamer node: its role adds every block of a segment and then publishes their CIDs, through the
    client's one command queue, to the background task that also serves the peers. Why the store as
    written never misfiles a block there. */
module Streamer {
  import opened Types
  import opened Sequences
  import opened ExchangeSpec
  import opened Ledgers
  import opened Scheduler
  import opened SchedulerRuns
  import opened Segments

  // ---------- the client and one call of generate_video ----------

  // The client's BlockGet, BlockAdd and Publish commands.
  datatype Command = Get(cid: Cid, reply: nat) | Put(block: Block) | Tell(message: Message)

  /** The sending half of the command queue. The receiving half takes from the front. */
  class IpfsClient {
    var queue: seq<Command>

    constructor ()
      ensures queue == []
    {
      queue := [];
    }

    method Send(command: Command)
      modifies this
      ensures queue == old(queue) + [command]
    {
      queue := queue + [command];
    }
  }

  ghost function Cids(blocks: seq<Block>): (r: seq<Cid>)
    ensures |r| == |blocks| && forall k | 0 <= k < |blocks| :: r[k] == blocks[k].cid
  {
    seq(|blocks|, k requires 0 <= k < |blocks| => blocks[k].cid)
  }

  ghost function Adds(blocks: seq<Block>): (r: seq<Command>)
    ensures |r| == |blocks| && forall k | 0 <= k < |blocks| :: r[k] == Put(blocks[k])
  {
    seq(|blocks|, k requires 0 <= k < |blocks| => Put(blocks[k]))
  }

  function Next(counter: u64): u64 { (counter + 1) % U64_RANGE }

  class VideoSource {
    const client: IpfsClient
    var counter: u64

    constructor (client: IpfsClient)
      ensures this.client == client && counter == 1
    {
      this.client := client;
      counter := 1;
    }

    /** One segment: all adds go into the queue, then one publish that names exactly their CIDs. */
    method GenerateVideo(fill: (nat, nat) -> Bytes, digest: Bytes -> Cid, bitrate: u64, segmentLength: u64,
                         maxSize: bool, timestamp: u64) returns (ghost blocks: seq<Block>)
      requires forall k: nat, n: nat :: |fill(k, n)| == n
      modifies this`counter, client
      ensures counter == (old(counter) + 1) % 0x1_0000_0000_0000_0000
      ensures client.queue == old(client.queue) + Adds(blocks)
                            + [Tell(Message(old(counter), timestamp, Cids(blocks)))]
      ensures forall k | 0 <= k < |blocks| :: blocks[k].cid == digest(blocks[k].data)
      ensures var bits := SegmentBits(bitrate, segmentLength);
        var size := if maxSize then 524288 else 262144;
        && (8 <= bits < 0x1_0000_0000_0000_0000 <==>
              |blocks| < 0x1_0000_0000_0000_0000 && IsSplit(blocks, bits / 8, size))
        && IsWrappedSplit(blocks, bits % 0x1_0000_0000_0000_0000 / 8, size)
    {
      var count := counter;
      counter := Next(counter);
      var made := GenerateBlocks(fill, digest, bitrate, segmentLength, maxSize);
      blocks := made;
      var cids: seq<Cid> := [];
      var k := 0;
      assert client.queue == old(client.queue) + Adds(made[..0]);
      while k < |made|
        invariant k <= |made| && counter == Next(old(counter))
        invariant cids == Cids(made[..k])
        invariant client.queue == old(client.queue) + Adds(made[..k])
      {
        client.Send(Put(made[k]));
        cids := cids + [made[k].cid];
        assert Adds(made[..k + 1]) == Adds(made[..k]) + [Put(made[k])];
        k := k + 1;
      }
      assert made[..k] == made;
      client.Send(Tell(Message(count, timestamp, cids)));
    }
  }

  // ---------- the whole node, interleaved ----------

  datatype Phase = Idle | Adding(left: seq<Block>, number: u64) | Published

  datatype Sys = Sys(
    phase: Phase,
    counter: u64,
    queue: seq<Command>,
    node: Node,
    segments: seq<seq<Block>>)   // the blocks of every segment begun so far

  ghost function Boot(cap: nat): Sys {
    Sys(Idle, 1, [], Start(cap), [])
  }

  datatype Action =
    | Begin(blocks: seq<Block>)      // the interval ticks and a segment is generated
    | Enqueue(i: nat)                // one of the joined add futures runs
    | Announce(timestamp: u64)       // all adds are done: publish
    | Handle                         // the background task takes a command
    | Network(event: Event)          // or a bitswap event

  ghost function Handled(c: Command): Event {
    match c
    case Get(c, r) => BlockGet(c, r)
    case Put(b) => BlockAdd(b)
    case Tell(m) => Publish(m)
  }

  ghost predicate Announced(n: Node, c: Cid) {
    exists m :: m in n.published && c in m.cids
  }

  /** When an action can happen. The two assumptions about the network: a received block hashes to its
      CID, and peers want only CIDs they learned from a published message. */
  ghost predicate Enabled(s: Sys, a: Action, digest: Bytes -> Cid) {
    match a
    case Begin(blocks) => s.phase.Idle? && forall b | b in blocks :: b.cid == digest(b.data)
    case Enqueue(i) => s.phase.Adding? && i < |s.phase.left|
    case Announce(_) => s.phase.Adding? && s.phase.left == [] && s.segments != []
    case Handle => s.queue != []
    case Network(e) =>
      match e
      case ReceivedBlock(_, b) => b.cid == digest(b.data)
      case ReceivedWant(_, c) => Announced(s.node, c)
      case ReceivedCancel(_, _) => true
      case _ => false
  }

  ghost function Act(s: Sys, a: Action): Sys {
    match a
    case Begin(blocks) => s.(phase := Adding(blocks, s.counter), counter := Next(s.counter), segments := s.segments + [blocks])
    case Enqueue(i) =>
      if s.phase.Adding? && i < |s.phase.left| then
        s.(phase := s.phase.(left := Removed(s.phase.left, i)), queue := s.queue + [Put(s.phase.left[i])])
      else s
    case Announce(t) =>
      if s.segments == [] || !s.phase.Adding? then s
      else s.(phase := Published, queue := s.queue + [Tell(Message(s.phase.number, t, Cids(Last(s))))])
    case Handle =>
      if s.queue == [] then s
      else s.(phase := if s.queue[0].Tell? then Idle else s.phase,
              queue := s.queue[1..], node := Step(s.node, Handled(s.queue[0])))
    case Network(e) => s.(node := Step(s.node, e))
  }

  /** The number of the k-th segment; counting starts at 1. */
  function Count(k: nat): u64 { k % U64_RANGE }

  ghost function Last(s: Sys): seq<Block>
    requires s.segments != []
  {
    s.segments[|s.segments| - 1]
  }

  ghost function After(s: Sys, acts: seq<Action>): Sys
    decreases |acts|
  {
    if acts == [] then s else After(Act(s, acts[0]), acts[1..])
  }

  ghost predicate AllEnabled(s: Sys, acts: seq<Action>, digest: Bytes -> Cid)
    decreases |acts|
  {
    acts == [] || (Enabled(s, acts[0], digest) && AllEnabled(Act(s, acts[0]), acts[1..], digest))
  }

  /** The path of one uninterrupted call: the adds one after the other, then the publish. */
  ghost function InOrder(n: nat, timestamp: u64): seq<Action> {
    if n == 0 then [Announce(timestamp)] else [Enqueue(0)] + InOrder(n - 1, timestamp)
  }

  lemma AfterOne(s: Sys, a: Action, rest: seq<Action>, digest: Bytes -> Cid)
    ensures After(s, [a] + rest) == After(Act(s, a), rest)
    ensures AllEnabled(s, [a] + rest, digest) <==> Enabled(s, a, digest) && AllEnabled(Act(s, a), rest, digest)
  {
    assert ([a] + rest)[1..] == rest;
  }

  lemma AddsFirst(queue: seq<Command>, blocks: seq<Block>)
    ensures blocks == [] ==> queue + Adds(blocks) == queue
    ensures blocks != [] ==> queue + Adds(blocks) == queue + [Put(blocks[0])] + Adds(blocks[1..])
  {
  }

  /** One uninterrupted call of generate_video is one of the paths of the interleaved model: it puts
      into the queue exactly what the method above puts there. */
  lemma {:induction false} UninterruptedAdds(s: Sys, timestamp: u64, digest: Bytes -> Cid)
    requires s.phase.Adding? && s.segments != []
    ensures AllEnabled(s, InOrder(|s.phase.left|, timestamp), digest)
    ensures After(s, InOrder(|s.phase.left|, timestamp)).queue
         == s.queue + Adds(s.phase.left) + [Tell(Message(s.phase.number, timestamp, Cids(Last(s))))]
    decreases |s.phase.left|
  {
    var left := s.phase.left;
    AddsFirst(s.queue, left);
    if left == [] {
      AfterOne(s, Announce(timestamp), [], digest);
      assert [Announce(timestamp)] + [] == [Announce(timestamp)];
    } else {
      var t := Act(s, Enqueue(0));
      assert t.phase.left == left[1..];
      AfterOne(s, Enqueue(0), InOrder(|left| - 1, timestamp), digest);
      UninterruptedAdds(t, timestamp, digest);
    }
  }

  // ---------- what every state keeps ----------

  /** Every CID has its data, and the data hashes to the CID. */
  ghost predicate Aligned(e: Exchange, digest: Bytes -> Cid) {
    && Valid(e) && |e.cids| == |e.datums|
    && forall i | 0 <= i < |e.datums| :: e.cids[i] == digest(e.datums[i])
  }

  /** A block of the current segment is still to be added, in the queue, or stored. */
  ghost predicate OnItsWay(s: Sys, b: Block) {
    || HasData(s.node.ex, b.cid)
    || Put(b) in s.queue
    || (s.phase.Adding? && b in s.phase.left)
  }

  ghost predicate CurrentSegment(s: Sys) {
    match s.phase
    case Idle => s.queue == [] && |s.node.published| == |s.segments|
    case Adding(left, number) =>
      && number == Count(|s.segments|)
      && |s.node.published| + 1 == |s.segments|
      && (forall c | c in s.queue :: c.Put?)
      && forall b | b in Last(s) :: OnItsWay(s, b)
    case Published =>
      && |s.node.published| + 1 == |s.segments|
      && s.queue != [] && Final(s).Tell?
      && Final(s).message.cids == Cids(Last(s)) && Final(s).message.count == Count(|s.segments|)
      && (forall k | 0 <= k < |s.queue| - 1 :: s.queue[k].Put?)
      && forall b | b in Last(s) :: OnItsWay(s, b)
  }

  ghost function Final(s: Sys): Command
    requires s.queue != []
  {
    s.queue[|s.queue| - 1]
  }

  /** Blocks travelling to the store hash to their CIDs. */
  ghost predicate Genuine(s: Sys, digest: Bytes -> Cid) {
    && (forall c | c in s.queue && c.Put? :: c.block.cid == digest(c.block.data))
    && (s.phase.Adding? ==> forall b | b in s.phase.left :: b.cid == digest(b.data))
    && (forall k | 0 <= k < |s.segments| :: forall b | b in s.segments[k] :: b.cid == digest(b.data))
  }

  /** Published messages are numbered 1, 2, 3, .., name their segment's blocks, and are all stored. */
  ghost predicate PublishedStored(s: Sys) {
    && |s.node.published| <= |s.segments|
    && forall k | 0 <= k < |s.node.published| ::
      && s.node.published[k].count == Count(k + 1)
      && s.node.published[k].cids == Cids(s.segments[k])
      && forall c | c in s.node.published[k].cids :: HasData(s.node.ex, c)
  }

  ghost predicate Inv(s: Sys, digest: Bytes -> Cid) {
    && Safe(s.node)
    && Aligned(s.node.ex, digest)
    && CurrentSegment(s)
    && Genuine(s, digest)
    && PublishedStored(s)
    && s.counter == Count(|s.segments| + 1)
  }

  // ---------- proofs, action by action ----------

  /** On an aligned exchange `add_block` as written is always in place, and keeps it aligned. */
  lemma AlignedAdd(e: Exchange, b: Block, digest: Bytes -> Cid)
    requires Aligned(e, digest) && b.cid == digest(b.data)
    ensures InPlace(e, b.cid)
    ensures Aligned(ExchangeSpec.AddBlock(e, b), digest)
    ensures Abs(ExchangeSpec.AddBlock(e, b)) == LedgerStep(Abs(e), Add(b))
    ensures HasData(ExchangeSpec.AddBlock(e, b), b.cid)
  {
    AddBlockExtends(e, b);
    AgreesExactlyInPlace(e, b);
    if !HasData(e, b.cid) {
      AppendedDistinct(e.cids, b.cid);
      assert ExchangeSpec.AddBlock(e, b).cids[|e.cids|] == b.cid;
    }
  }

  /** An event the node can see while aligned leaves it aligned. */
  lemma StepAligned(n: Node, e: Event, digest: Bytes -> Cid)
    requires Safe(n) && Aligned(n.ex, digest)
    requires e.ReceivedBlock? ==> e.block.cid == digest(e.block.data)
    requires e.BlockAdd? ==> e.block.cid == digest(e.block.data)
    requires e.ReceivedWant? ==> HasData(n.ex, e.cid)
    ensures Safe(Step(n, e)) && Aligned(Step(n, e).ex, digest)
    ensures forall c | HasData(n.ex, c) :: HasData(Step(n, e).ex, c)
    ensures e.BlockAdd? ==> HasData(Step(n, e).ex, e.block.cid)
  {
    StepStable(n, e);
    assert Step(n, e).ex == Absorb(n, e).ex;
    forall c | HasData(n.ex, c) ensures HasData(Step(n, e).ex, c) {
      assert c in Stored(n.ex);
    }
    match e
    case ReceivedBlock(_, b) => AlignedAdd(n.ex, b, digest);
    case BlockAdd(b) => AlignedAdd(n.ex, b, digest);
    case ReceivedCancel(p, c) => RemoveWantKeeps(n.ex, p, c);
    case _ =>
  }

  lemma PublishedKept(n: Node, e: Event)
    ensures Step(n, e).published == if e.Publish? then n.published + [e.message] else n.published
  {
  }

  lemma AnnouncedStored(s: Sys, c: Cid)
    requires PublishedStored(s) && Announced(s.node, c)
    ensures HasData(s.node.ex, c)
  {
    var m :| m in s.node.published && c in m.cids;
    var k :| 0 <= k < |s.node.published| && s.node.published[k] == m;
    assert c in s.node.published[k].cids;
  }

  lemma BeginKeeps(s: Sys, blocks: seq<Block>, digest: Bytes -> Cid)
    requires Inv(s, digest) && Enabled(s, Begin(blocks), digest)
    ensures Inv(Act(s, Begin(blocks)), digest)
  {
    var t := Act(s, Begin(blocks));
    assert Last(t) == blocks && t.queue == [] && t.node == s.node;
    assert CurrentSegment(t);
    assert Genuine(t, digest);
    assert forall k | 0 <= k < |s.segments| :: t.segments[k] == s.segments[k];
    assert PublishedStored(t);
  }

  lemma EnqueueKeeps(s: Sys, i: nat, digest: Bytes -> Cid)
    requires Inv(s, digest) && Enabled(s, Enqueue(i), digest)
    ensures Inv(Act(s, Enqueue(i)), digest)
  {
    var t, b := Act(s, Enqueue(i)), s.phase.left[i];
    assert t.queue[|s.queue|] == Put(b);
    forall x | x in Last(s) ensures OnItsWay(t, x) {
      assert OnItsWay(s, x);
      if x in s.phase.left && x != b {
        var k :| 0 <= k < |s.phase.left| && s.phase.left[k] == x;
        assert t.phase.left[if k < i then k else k - 1] == x;
      }
    }
  }

  lemma AnnounceKeeps(s: Sys, timestamp: u64, digest: Bytes -> Cid)
    requires Inv(s, digest) && Enabled(s, Announce(timestamp), digest)
    ensures Inv(Act(s, Announce(timestamp)), digest)
  {
    var t := Act(s, Announce(timestamp));
    forall x | x in Last(s) ensures OnItsWay(t, x) {
      assert OnItsWay(s, x);
    }
  }

  /** A node that published nothing new and lost no block can take the old node's place. */
  lemma NodeMoves(s: Sys, n: Node, digest: Bytes -> Cid)
    requires Inv(s, digest) && Safe(n) && Aligned(n.ex, digest)
    requires n.published == s.node.published && forall c | HasData(s.node.ex, c) :: HasData(n.ex, c)
    ensures Inv(s.(node := n), digest)
  {
    var t := s.(node := n);
    if !s.phase.Idle? {
      forall x | x in Last(s) ensures OnItsWay(t, x) {
        assert OnItsWay(s, x);
      }
    }
    assert CurrentSegment(t) && PublishedStored(t);
  }

  /** Once the block of the first command is stored, the command can go. */
  lemma PutTaken(s: Sys, digest: Bytes -> Cid)
    requires Inv(s, digest) && s.queue != [] && s.queue[0].Put? && HasData(s.node.ex, s.queue[0].block.cid)
    ensures Inv(s.(queue := s.queue[1..]), digest)
  {
    var t := s.(queue := s.queue[1..]);
    assert s.queue == [s.queue[0]] + t.queue;
    forall x | x in Last(s) ensures OnItsWay(t, x) {
      assert OnItsWay(s, x);
    }
    assert CurrentSegment(t);
  }

  lemma HandlePutKeeps(s: Sys, digest: Bytes -> Cid)
    requires Inv(s, digest) && s.queue != [] && s.queue[0].Put?
    ensures Inv(Act(s, Handle), digest)
  {
    var b := s.queue[0].block;
    assert Put(b) in s.queue;
    StepAligned(s.node, BlockAdd(b), digest);
    PublishedKept(s.node, BlockAdd(b));
    NodeMoves(s, Step(s.node, BlockAdd(b)), digest);
    PutTaken(s.(node := Step(s.node, BlockAdd(b))), digest);
  }

  lemma HandleTellKeeps(s: Sys, digest: Bytes -> Cid)
    requires Inv(s, digest) && s.queue != [] && s.queue[0].Tell?
    ensures Inv(Act(s, Handle), digest)
  {
    var t, m := Act(s, Handle), s.queue[0].message;
    assert s.phase.Published? && s.queue == [Tell(m)];
    assert t.node == s.node.(published := s.node.published + [m]);
    forall c | c in m.cids ensures HasData(s.node.ex, c) {
      var j :| 0 <= j < |m.cids| && m.cids[j] == c;
      assert OnItsWay(s, Last(s)[j]);
    }
    assert PublishedStored(t);
  }

  lemma NetworkKeeps(s: Sys, e: Event, digest: Bytes -> Cid)
    requires Inv(s, digest) && Enabled(s, Network(e), digest)
    ensures Inv(Act(s, Network(e)), digest)
  {
    if e.ReceivedWant? { AnnouncedStored(s, e.cid); }
    StepAligned(s.node, e, digest);
    PublishedKept(s.node, e);
    NodeMoves(s, Step(s.node, e), digest);
  }

  lemma ActKeeps(s: Sys, a: Action, digest: Bytes -> Cid)
    requires Inv(s, digest) && Enabled(s, a, digest)
    ensures Inv(Act(s, a), digest)
  {
    match a
    case Begin(blocks) => BeginKeeps(s, blocks, digest);
    case Enqueue(i) => EnqueueKeeps(s, i, digest);
    case Announce(t) => AnnounceKeeps(s, t, digest);
    case Handle =>
      assert s.queue[0] in s.queue;
      if s.queue[0].Put? { HandlePutKeeps(s, digest); } else { HandleTellKeeps(s, digest); }
    case Network(e) => NetworkKeeps(s, e, digest);
  }

  lemma {:induction false} AfterKeeps(s: Sys, acts: seq<Action>, digest: Bytes -> Cid)
    requires Inv(s, digest) && AllEnabled(s, acts, digest)
    ensures Inv(After(s, acts), digest)
    decreases |acts|
  {
    if acts != [] {
      ActKeeps(s, acts[0], digest);
      AfterKeeps(Act(s, acts[0]), acts[1..], digest);
    }
  }

  // ---------- the results ----------

  /** On every run of the streamer node, under any interleaving: every known CID has its data, no
      `add_block` call can take the swapping branch, and each block of each published message can be
      read back and hashes to its CID. */
  lemma StreamerAligned(cap: nat, acts: seq<Action>, digest: Bytes -> Cid)
    requires AllEnabled(Boot(cap), acts, digest)
    ensures var n := After(Boot(cap), acts).node;
      && Safe(n) && |n.ex.cids| == |n.ex.datums|
      && (forall c :: InPlace(n.ex, c) && (c in n.ex.cids ==> HasData(n.ex, c)))
      && forall m, c | m in n.published && c in m.cids :: c in Stored(n.ex) && digest(Stored(n.ex)[c]) == c
  {
    AfterKeeps(Boot(cap), acts, digest);
    var s := After(Boot(cap), acts);
    forall m, c | m in s.node.published && c in m.cids
      ensures c in Stored(s.node.ex) && digest(Stored(s.node.ex)[c]) == c
    {
      AnnouncedStored(s, c);
    }
  }

  /** The blocks an action brings to the node: a generated segment's, or one from the network. */
  ghost function Brought(a: Action): set<Block> {
    match a
    case Begin(blocks) => set b | b in blocks
    case Network(ReceivedBlock(_, b)) => {b}
    case _ => {}
  }

  ghost function AllBrought(acts: seq<Action>): set<Block> {
    if acts == [] then {} else Brought(acts[0]) + AllBrought(acts[1..])
  }

  /** Everything stored, queued, to be added or generated is one of these blocks. */
  ghost predicate StoredFrom(e: Exchange, bs: set<Block>)
    requires |e.datums| <= |e.cids|
  {
    forall i | 0 <= i < |e.datums| :: Block(e.cids[i], e.datums[i]) in bs
  }

  ghost predicate TravelFrom(s: Sys, bs: set<Block>) {
    && (forall c | c in s.queue && c.Put? :: c.block in bs)
    && (s.phase.Adding? ==> forall b | b in s.phase.left :: b in bs)
    && (forall k | 0 <= k < |s.segments| :: forall b | b in s.segments[k] :: b in bs)
  }

  lemma StepStoredFrom(n: Node, e: Event, bs: set<Block>, digest: Bytes -> Cid)
    requires Aligned(n.ex, digest) && StoredFrom(n.ex, bs)
    requires e.ReceivedBlock? || e.BlockAdd? ==> e.block in bs && e.block.cid == digest(e.block.data)
    requires e.ReceivedWant? ==> HasData(n.ex, e.cid)
    ensures |Step(n, e).ex.datums| <= |Step(n, e).ex.cids| && StoredFrom(Step(n, e).ex, bs)
  {
    assert Step(n, e).ex == Absorb(n, e).ex;
    if e.ReceivedBlock? || e.BlockAdd? { AlignedAdd(n.ex, e.block, digest); }
  }

  lemma ActTravelFrom(s: Sys, a: Action, bs: set<Block>, digest: Bytes -> Cid)
    requires TravelFrom(s, bs) && Enabled(s, a, digest)
    ensures TravelFrom(Act(s, a), bs + Brought(a))
  {
    if a.Handle? { assert forall c | c in s.queue[1..] :: c in s.queue; }
  }

  lemma ActStoredFrom(s: Sys, a: Action, bs: set<Block>, digest: Bytes -> Cid)
    requires Inv(s, digest) && Enabled(s, a, digest)
    requires TravelFrom(s, bs) && StoredFrom(s.node.ex, bs)
    ensures Aligned(Act(s, a).node.ex, digest) && StoredFrom(Act(s, a).node.ex, bs + Brought(a))
  {
    ActKeeps(s, a, digest);
    match a
    case Handle =>
      assert s.queue[0] in s.queue;
      StepStoredFrom(s.node, Handled(s.queue[0]), bs, digest);
    case Network(e) =>
      if e.ReceivedWant? { AnnouncedStored(s, e.cid); }
      StepStoredFrom(s.node, e, bs + Brought(a), digest);
    case _ =>
  }

  lemma {:induction false} AfterFrom(s: Sys, acts: seq<Action>, bs: set<Block>, digest: Bytes -> Cid)
    requires Inv(s, digest) && AllEnabled(s, acts, digest)
    requires TravelFrom(s, bs) && StoredFrom(s.node.ex, bs)
    ensures var t := After(s, acts);
      Inv(t, digest) && TravelFrom(t, bs + AllBrought(acts)) && StoredFrom(t.node.ex, bs + AllBrought(acts))
    decreases |acts|
  {
    if acts == [] {
      assert bs + AllBrought(acts) == bs;
    } else {
      var more := bs + Brought(acts[0]);
      ActKeeps(s, acts[0], digest);
      ActTravelFrom(s, acts[0], bs, digest);
      ActStoredFrom(s, acts[0], bs, digest);
      AfterFrom(Act(s, acts[0]), acts[1..], more, digest);
      assert more + AllBrought(acts[1..]) == bs + AllBrought(acts);
    }
  }

  /** Slots that are stored from known blocks: what is read back for a CID is one of those blocks. */
  lemma ReadFrom(e: Exchange, c: Cid, bs: set<Block>)
    requires Valid(e) && StoredFrom(e, bs) && c in Stored(e)
    ensures Block(c, Stored(e)[c]) in bs
  {
    var i := Slot(e.cids, c);
    assert Block(e.cids[i], e.datums[i]) in bs;
  }

  /** For the j-th CID of the k-th published message, the node reads back a block that was generated or
      received, with the same hash as the block generated for that CID. It is that very block unless
      this run brought another one with the same CID. Messages are published in the order of their
      numbers. */
  lemma PublishedReadsBack(cap: nat, acts: seq<Action>, digest: Bytes -> Cid, k: nat, j: nat)
    requires AllEnabled(Boot(cap), acts, digest)
    requires var s := After(Boot(cap), acts); k < |s.node.published| && j < |s.node.published[k].cids|
    ensures var s := After(Boot(cap), acts);
      && s.node.published[k].count == (k + 1) % 0x1_0000_0000_0000_0000
      && Safe(s.node) && k < |s.segments| && |s.segments[k]| == |s.node.published[k].cids|
      && var b, stored := s.segments[k][j], Stored(s.node.ex);
        && b.cid == s.node.published[k].cids[j] && b in AllBrought(acts)
        && b.cid in stored && digest(stored[b.cid]) == digest(b.data)
        && Block(b.cid, stored[b.cid]) in AllBrought(acts)
        && ((forall x | x in AllBrought(acts) && x.cid == b.cid :: x.data == b.data) ==> stored[b.cid] == b.data)
  {
    BootKeeps(cap, digest);
    AfterFrom(Boot(cap), acts, {}, digest);
    assert {} + AllBrought(acts) == AllBrought(acts);
    var s := After(Boot(cap), acts);
    var b := s.segments[k][j];
    assert s.node.published[k].cids[j] == b.cid && b in s.segments[k];
    assert HasData(s.node.ex, b.cid);
    ReadFrom(s.node.ex, b.cid, AllBrought(acts));
  }

  lemma {:induction false} AfterAccounted(s: Sys, acts: seq<Action>)
    requires Safe(s.node) && Accounted(s.node)
    ensures Accounted(After(s, acts).node)
    decreases |acts|
  {
    if acts != [] {
      ActAccounted(s, acts[0]);
      AfterAccounted(Act(s, acts[0]), acts[1..]);
    }
  }

  lemma ActAccounted(s: Sys, a: Action)
    requires Safe(s.node) && Accounted(s.node)
    ensures Safe(Act(s, a).node) && Accounted(Act(s, a).node)
  {
    if a.Network? {
      StepSafe(s.node, a.event);
      StepAccounted(s.node, a.event);
    } else if a.Handle? && s.queue != [] {
      StepSafe(s.node, Handled(s.queue[0]));
      StepAccounted(s.node, Handled(s.queue[0]));
    }
  }

  lemma SentIsGenuine(s: Sys, digest: Bytes -> Cid)
    requires Inv(s, digest) && Accounted(s.node)
    ensures var n := s.node;
      |n.payloads| == |n.sends| && forall k | 0 <= k < |n.sends| :: digest(n.payloads[k]) == n.sends[k].1
  {
  }

  lemma BootKeeps(cap: nat, digest: Bytes -> Cid)
    ensures Inv(Boot(cap), digest) && Accounted(Boot(cap).node)
  {
    StartAccounted(cap);
  }

  /** Whatever the streamer node ever sends for a CID hashes to that CID. */
  lemma StreamerSendsGenuine(cap: nat, acts: seq<Action>, digest: Bytes -> Cid)
    requires AllEnabled(Boot(cap), acts, digest)
    ensures var n := After(Boot(cap), acts).node;
      |n.payloads| == |n.sends| && forall k | 0 <= k < |n.sends| :: digest(n.payloads[k]) == n.sends[k].1
  {
    BootKeeps(cap, digest);
    AfterAccounted(Boot(cap), acts);
    AfterKeeps(Boot(cap), acts, digest);
    SentIsGenuine(After(Boot(cap), acts), digest);
  }

  ghost function HandleCount(acts: seq<Action>): nat {
    if acts == [] then 0 else (if acts[0].Handle? then 1 else 0) + HandleCount(acts[1..])
  }

  lemma {:induction false} PublishedGrows(s: Sys, acts: seq<Action>)
    ensures s.node.published <= After(s, acts).node.published
    decreases |acts|
  {
    if acts != [] {
      ActPublished(s, acts[0]);
      PublishedGrows(Act(s, acts[0]), acts[1..]);
    }
  }

  lemma ActPublished(s: Sys, a: Action)
    ensures s.node.published <= Act(s, a).node.published
  {
    if a.Network? { PublishedKept(s.node, a.event); }
    if a.Handle? && s.queue != [] { PublishedKept(s.node, Handled(s.queue[0])); }
  }

  /** While an announced segment waits, the background task can always take a command, and a command
      taken brings the announcement one place forward; a network event leaves the queue alone. */
  lemma ActWhilePublished(s: Sys, a: Action, digest: Bytes -> Cid)
    requires CurrentSegment(s) && s.phase.Published? && Enabled(s, a, digest)
    ensures Enabled(s, Handle, digest) && (a.Handle? || a.Network?)
    ensures var t := Act(s, a);
      if a.Handle? && |s.queue| == 1 then t.node.published == s.node.published + [Final(s).message]
      else t.phase.Published? && t.node.published == s.node.published && Final(t) == Final(s) &&
           |t.queue| == |s.queue| - (if a.Handle? then 1 else 0)
  {
    if a.Network? {
      PublishedKept(s.node, a.event);
    } else {
      PublishedKept(s.node, Handled(s.queue[0]));
      assert |s.queue| > 1 ==> s.queue[0].Put?;
      assert |s.queue| == 1 ==> s.queue[0] == Final(s);
    }
  }

  /** Once a segment is announced, its message is the next one published, on every run, exactly when the
      background task has taken as many commands as were in the queue, whatever bitswap events come in
      between; and it can always take the next. */
  lemma {:induction false} AnnouncedSegmentCompletes(s: Sys, acts: seq<Action>, digest: Bytes -> Cid)
    requires Inv(s, digest) && s.phase.Published? && AllEnabled(s, acts, digest)
    ensures Enabled(s, Handle, digest)
    ensures var before, after := s.node.published, After(s, acts).node.published;
      && before <= after
      && (|before| < |after| <==> |s.queue| <= HandleCount(acts))
      && (|before| < |after| ==> after[|before|] == Final(s).message)
    decreases |acts|
  {
    if acts != [] {
      var t := Act(s, acts[0]);
      ActWhilePublished(s, acts[0], digest);
      ActKeeps(s, acts[0], digest);
      if acts[0].Handle? && |s.queue| == 1 {
        PublishedGrows(t, acts[1..]);
      } else {
        AnnouncedSegmentCompletes(t, acts[1..], digest);
      }
    }
  }
}
