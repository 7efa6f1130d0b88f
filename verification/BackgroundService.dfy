/** The background task: one method per event and command, updating the exchange, the set of sends in
    progress and the map of waiting requests in place. What it tells the swarm and its clients is kept
    in ghost logs. Each method does exactly `Scheduler.Step`. */
module BackgroundServices {
  import opened Types
  import opened Sequences
  import opened ExchangeSpec
  import opened BlockExchanges
  import opened Scheduler

  /** The first free want of the list is the first servable want that is not being sent. */
  lemma {:induction false} FirstFreeServed(n: Node, j: nat) returns (m: nat)
    requires Valid(n.ex) && j <= |n.ex.wants|
    ensures var served := Filter(n.ex.wants[j..], iset w: Want | HasData(n.ex, w.1));
      m <= |served| && (forall t | 0 <= t < m :: served[t] in n.pending) &&
      match FirstFree(n, j)
      case None => m == |served|
      case Some(i) => m < |served| && served[m] == n.ex.wants[i]
    decreases |n.ex.wants| - j
  {
    m := 0;
    if j < |n.ex.wants| {
      assert n.ex.wants[j..][1..] == n.ex.wants[j + 1..];
      if !Free(n, n.ex.wants[j]) {
        m := FirstFreeServed(n, j + 1);
        if HasData(n.ex, n.ex.wants[j].1) { m := m + 1; }
      }
    }
  }

  class BackgroundService {
    const exchange: BlockExchange
    const maxConcurrentSend: nat
    var pendingSendBlock: set<Want>
    var pendingGetBlock: map<Cid, nat>

    ghost var sends: seq<Want>
    ghost var payloads: seq<Bytes>
    ghost var hits: seq<Want>
    ghost var asked: seq<Request>
    ghost var answered: seq<Request>
    ghost var answers: seq<Block>
    ghost var superseded: seq<Request>
    ghost var published: seq<Message>

    ghost function View(): Node
      requires exchange.Valid()
      reads this, exchange
    {
      Node(exchange.View(), pendingSendBlock, maxConcurrentSend, pendingGetBlock,
           sends, payloads, hits, asked, answered, answers, superseded, published)
    }

    constructor (maxConcurrentSend: nat)
      ensures exchange.Valid() && fresh(exchange)
      ensures View() == Start(maxConcurrentSend)
    {
      exchange := new BlockExchange();
      this.maxConcurrentSend := maxConcurrentSend;
      pendingSendBlock, pendingGetBlock := {}, map[];
      sends, payloads, hits := [], [], [];
      asked, answered, answers, superseded, published := [], [], [], [], [];
    }

    /** The loop at the end of all three bitswap arms: walk the wanted blocks, skip the ones being
        sent, send the first other one and stop. */
    method SendFirstFree()
      requires exchange.Valid()
      modifies this
      ensures View() == Serve(old(View()))
    {
      var wanted := exchange.IterWantedBlocks();
      ghost var n, served := View(), Servable(exchange.View());
      ghost var m := FirstFreeServed(n, 0);
      assert n.ex.wants[0..] == n.ex.wants;
      var k := 0;
      while k < |wanted|
        invariant k <= |wanted| && View() == n
        invariant forall t | 0 <= t < k :: served[t] in n.pending
      {
        var (peer, block) := wanted[k];
        if (peer, block.cid) !in pendingSendBlock {
          assert k == m;
          pendingSendBlock := pendingSendBlock + {(peer, block.cid)};
          sends, payloads := sends + [(peer, block.cid)], payloads + [block.data];
          return;
        }
        k := k + 1;
      }
    }

    method ReceivedBlock(peer: PeerId, block: Block)
      requires exchange.Valid()
      modifies this, exchange
      ensures exchange.Valid() && View() == Step(old(View()), Event.ReceivedBlock(peer, block))
    {
      var _ := exchange.AddBlock(block);
      if block.cid in pendingGetBlock {
        answered, answers := answered + [(block.cid, pendingGetBlock[block.cid])], answers + [block];
        pendingGetBlock := pendingGetBlock - {block.cid};
      }
      if |pendingSendBlock| >= maxConcurrentSend { return; }
      SendFirstFree();
    }

    method ReceivedWant(peer: PeerId, cid: Cid)
      requires exchange.Valid()
      modifies this, exchange
      ensures exchange.Valid() && View() == Step(old(View()), Event.ReceivedWant(peer, cid))
    {
      exchange.AddWant(peer, cid);
      if |pendingSendBlock| >= maxConcurrentSend { return; }
      SendFirstFree();
    }

    method ReceivedCancel(peer: PeerId, cid: Cid)
      requires exchange.Valid()
      modifies this, exchange
      ensures exchange.Valid() && View() == Step(old(View()), Event.ReceivedCancel(peer, cid))
    {
      exchange.RemoveWant(peer, cid);
      if (peer, cid) !in pendingSendBlock { return; }
      pendingSendBlock := pendingSendBlock - {(peer, cid)};
      hits := hits + [(peer, cid)];
      SendFirstFree();
    }

    /** A second request for a CID takes the first one's place; the first is told AlreadyExists. */
    method BlockGet(cid: Cid, reply: nat)
      requires exchange.Valid()
      modifies this
      ensures View() == Step(old(View()), Event.BlockGet(cid, reply))
    {
      if cid in pendingGetBlock {
        superseded := superseded + [(cid, pendingGetBlock[cid])];
      }
      pendingGetBlock := pendingGetBlock[cid := reply];
      asked := asked + [(cid, reply)];
    }

    method BlockAdd(block: Block)
      requires exchange.Valid()
      modifies exchange
      ensures exchange.Valid() && View() == Step(old(View()), Event.BlockAdd(block))
    {
      var _ := exchange.AddBlock(block);
    }

    method Publish(message: Message)
      requires exchange.Valid()
      modifies this
      ensures View() == Step(old(View()), Event.Publish(message))
    {
      published := published + [message];
    }

    /** The select loop: events and commands one at a time, in whatever order they come. */
    method RunLoop(events: seq<Event>)
      requires exchange.Valid()
      modifies this, exchange
      ensures exchange.Valid() && View() == Run(old(View()), events)
    {
      var k := 0;
      assert events[0..] == events;
      while k < |events|
        invariant k <= |events| && exchange.Valid()
        invariant Run(View(), events[k..]) == Run(old(View()), events)
      {
        assert events[k..][1..] == events[k + 1..];
        match events[k] {
          case ReceivedBlock(p, b) => ReceivedBlock(p, b);
          case ReceivedWant(p, c) => ReceivedWant(p, c);
          case ReceivedCancel(p, c) => ReceivedCancel(p, c);
          case BlockGet(c, r) => BlockGet(c, r);
          case BlockAdd(b) => BlockAdd(b);
          case Publish(m) => Publish(m);
        }
        k := k + 1;
      }
    }
  }
}
