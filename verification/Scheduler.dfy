/** The node as a state machine: what each event does to the exchange, to the sends in progress, and to
    the block requests of the local client. Wants are served in the order they came, and no more than
    a fixed number of sends run at a time. The class `BackgroundService` refines `Step`. */
module Scheduler {
  import opened Types
  import opened Sequences
  import opened ExchangeSpec

  // A local request for a block: the CID, and the reply channel that waits for it.
  type Request = (Cid, nat)

  datatype Node = Node(
    ex: Exchange,
    pending: set<Want>,          // pairs being sent
    cap: nat,                    // max_concurrent_send
    gets: map<Cid, nat>,         // requests waiting for their block
    sends: seq<Want>,            // every send_block call so far ..
    payloads: seq<Bytes>,        // .. and the data it carried
    hits: seq<Want>,             // every cancel that found its pair being sent
    asked: seq<Request>,         // every request made
    answered: seq<Request>,      // every request answered ..
    answers: seq<Block>,         // .. and the block it got
    superseded: seq<Request>,    // every request answered AlreadyExists
    published: seq<Message>)     // every message handed to gossipsub

  datatype Event =
    | ReceivedBlock(peer: PeerId, block: Block)
    | ReceivedWant(peer: PeerId, cid: Cid)
    | ReceivedCancel(peer: PeerId, cid: Cid)
    | BlockGet(cid: Cid, reply: nat)
    | BlockAdd(block: Block)
    | Publish(message: Message)

  ghost function Start(cap: nat): Node {
    Node(EMPTY, {}, cap, map[], [], [], [], [], [], [], [], [])
  }

  /** A want that could be sent now and is not being sent. */
  ghost predicate Free(n: Node, w: Want) {
    HasData(n.ex, w.1) && w !in n.pending
  }

  /** Least index from `k` on of a free want. */
  ghost function FirstFree(n: Node, k: nat): (r: Option<nat>)
    requires k <= |n.ex.wants|
    ensures r.Some? ==> k <= r.value < |n.ex.wants| && Free(n, n.ex.wants[r.value]) &&
                        forall j | k <= j < r.value :: !Free(n, n.ex.wants[j])
    ensures r.None? ==> forall j | k <= j < |n.ex.wants| :: !Free(n, n.ex.wants[j])
    decreases |n.ex.wants| - k
  {
    if k == |n.ex.wants| then None
    else if Free(n, n.ex.wants[k]) then Some(k)
    else FirstFree(n, k + 1)
  }

  /** Starts sending the first free want of the list, if there is one. */
  ghost function Serve(n: Node): Node {
    match FirstFree(n, 0)
    case None => n
    case Some(k) =>
      var w := n.ex.wants[k];
      n.(pending := n.pending + {w}, sends := n.sends + [w],
         payloads := n.payloads + [n.ex.datums[Slot(n.ex.cids, w.1)]])
  }

  /** Hands an arriving block to the request that waits for it. */
  ghost function Answer(n: Node, b: Block): Node {
    if b.cid in n.gets then
      n.(gets := n.gets - {b.cid}, answered := n.answered + [(b.cid, n.gets[b.cid])], answers := n.answers + [b])
    else n
  }

  ghost function Cancel(n: Node, w: Want): Node {
    var m := n.(ex := RemoveWant(n.ex, w.0, w.1));
    if w in n.pending then m.(pending := n.pending - {w}, hits := n.hits + [w]) else m
  }

  ghost function Ask(n: Node, c: Cid, r: nat): Node {
    n.(superseded := if c in n.gets then n.superseded + [(c, n.gets[c])] else n.superseded,
       gets := n.gets[c := r], asked := n.asked + [(c, r)])
  }

  /** The event taken in, before the node looks for something to send. */
  ghost function Absorb(n: Node, e: Event): Node {
    match e
    case ReceivedBlock(_, b) => Answer(n.(ex := AddBlock(n.ex, b)), b)
    case ReceivedWant(p, c) => n.(ex := AddWant(n.ex, p, c))
    case ReceivedCancel(p, c) => Cancel(n, (p, c))
    case BlockGet(c, r) => Ask(n, c, r)
    case BlockAdd(b) => n.(ex := AddBlock(n.ex, b))
    case Publish(m) => n.(published := n.published + [m])
  }

  /** Does the node look for something to send? On an arriving block or want, while it is below its
      cap; on a cancel, when that ended a send. */
  ghost predicate Serves(n: Node, e: Event) {
    match e
    case ReceivedBlock(_, _) => |n.pending| < n.cap
    case ReceivedWant(_, _) => |n.pending| < n.cap
    case ReceivedCancel(p, c) => (p, c) in n.pending
    case _ => false
  }

  ghost function Step(n: Node, e: Event): Node {
    if Serves(n, e) then Serve(Absorb(n, e)) else Absorb(n, e)
  }

  ghost function Run(n: Node, es: seq<Event>): Node
    decreases |es|
  {
    if es == [] then n else Run(Step(n, es[0]), es[1..])
  }
}
