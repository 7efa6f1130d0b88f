/** What every run of the node keeps, with `add_block` exactly as written. */
module SchedulerRuns {
  import opened Types
  import opened Sequences
  import opened ExchangeSpec
  import opened Scheduler
  import Ledgers

  // ---------- safety ----------

  /** Every send in progress is still wanted and its data is stored; the cap is respected. */
  ghost predicate Safe(n: Node) {
    && Valid(n.ex)
    && (forall w | w in n.pending :: w in n.ex.wants && HasData(n.ex, w.1))
    && |n.pending| <= n.cap
  }

  lemma ExtendsWant(e: Exchange, f: Exchange, w: Want)
    requires Valid(e) && Valid(f) && Extends(e, f) && HasData(e, w.1)
    ensures HasData(f, w.1) && Slot(f.cids, w.1) == Slot(e.cids, w.1)
    ensures w in e.wants ==> w in f.wants
    ensures f.datums[Slot(f.cids, w.1)] == e.datums[Slot(e.cids, w.1)]
  {
    var i := Slot(e.cids, w.1);
    assert f.cids[..|e.datums|][i] == e.cids[..|e.datums|][i];
    assert f.datums[..|e.datums|][i] == e.datums[i];
    if w in e.wants {
      var k :| 0 <= k < |e.wants| && e.wants[k] == w;
      assert f.wants[k] == w;
    }
  }

  /** Every event but a cancel only adds to the exchange and leaves the sends in progress alone. */
  lemma AbsorbGrows(n: Node, e: Event)
    requires Valid(n.ex) && !e.ReceivedCancel?
    ensures Valid(Absorb(n, e).ex) && Extends(n.ex, Absorb(n, e).ex)
    ensures Absorb(n, e).pending == n.pending && Absorb(n, e).hits == n.hits
    ensures Absorb(n, e).sends == n.sends && Absorb(n, e).payloads == n.payloads
  {
    match e
    case ReceivedBlock(_, b) => AddBlockExtends(n.ex, b);
    case ReceivedWant(p, c) => AddWantExtends(n.ex, p, c);
    case BlockAdd(b) => AddBlockExtends(n.ex, b);
    case _ =>
  }

  lemma ServeSafe(n: Node)
    requires Safe(n) && |n.pending| < n.cap
    ensures Safe(Serve(n))
  {
  }

  lemma AbsorbSafe(n: Node, e: Event)
    requires Safe(n)
    ensures Safe(Absorb(n, e))
    ensures Serves(n, e) ==> |Absorb(n, e).pending| < n.cap
  {
    var m := Absorb(n, e);
    if e.ReceivedCancel? {
      RemoveWantKeeps(n.ex, e.peer, e.cid);
    } else {
      AbsorbGrows(n, e);
      forall w | w in m.pending ensures w in m.ex.wants && HasData(m.ex, w.1) {
        ExtendsWant(n.ex, m.ex, w);
      }
    }
  }

  lemma StepSafe(n: Node, e: Event)
    requires Safe(n)
    ensures Safe(Step(n, e)) && Step(n, e).cap == n.cap
  {
    AbsorbSafe(n, e);
    if Serves(n, e) { ServeSafe(Absorb(n, e)); }
  }

  lemma {:induction false} RunSafe(n: Node, es: seq<Event>)
    requires Safe(n)
    ensures Safe(Run(n, es)) && Run(n, es).cap == n.cap
    decreases |es|
  {
    if es != [] {
      StepSafe(n, es[0]);
      RunSafe(Step(n, es[0]), es[1..]);
    }
  }

  // ---------- accounting of sends ----------

  /** Every send is either still in progress or was ended by a cancel. */
  ghost predicate SendsAccounted(n: Node) {
    multiset(n.sends) == multiset(n.pending) + multiset(n.hits)
  }

  /** What was sent for a CID is what the store returns for it. */
  ghost predicate SentFromStore(n: Node) {
    && |n.payloads| == |n.sends|
    && forall k | 0 <= k < |n.sends| ::
        HasData(n.ex, n.sends[k].1) && n.payloads[k] == n.ex.datums[Slot(n.ex.cids, n.sends[k].1)]
  }

  /** Every request is waiting, answered, or superseded; each answer is the block asked for. */
  ghost predicate RequestsAccounted(n: Node) {
    && multiset(n.asked) == multiset(n.gets.Items) + multiset(n.answered) + multiset(n.superseded)
    && |n.answers| == |n.answered|
    && forall k | 0 <= k < |n.answers| :: n.answers[k].cid == n.answered[k].0
  }

  ghost predicate Accounted(n: Node) {
    SendsAccounted(n) && SentFromStore(n) && RequestsAccounted(n)
  }

  lemma ServeAccounted(n: Node)
    requires SendsAccounted(n) && SentFromStore(n)
    ensures SendsAccounted(Serve(n)) && SentFromStore(Serve(n))
  {
  }

  lemma ItemsWithout(m: map<Cid, nat>, c: Cid)
    requires c in m
    ensures multiset(m.Items) == multiset((m - {c}).Items) + multiset{(c, m[c])}
  {
    var rest := (m - {c}).Items;
    assert (c, m[c]) !in rest;
    forall r ensures r in m.Items <==> r in rest + {(c, m[c])} {
      if r in m.Items && r.0 != c { assert r.0 in m - {c}; }
    }
    assert m.Items == rest + {(c, m[c])};
  }

  lemma AnswerAccounted(n: Node, b: Block)
    requires RequestsAccounted(n)
    ensures RequestsAccounted(Answer(n, b))
  {
    if b.cid in n.gets {
      var r := (b.cid, n.gets[b.cid]);
      ItemsWithout(n.gets, b.cid);
    }
  }

  lemma AskAccounted(n: Node, c: Cid, r: nat)
    requires RequestsAccounted(n)
    ensures RequestsAccounted(Ask(n, c, r))
  {
    var now := n.gets[c := r];
    assert now - {c} == n.gets - {c};
    ItemsWithout(now, c);
    var m := Ask(n, c, r);
    if c in n.gets {
      ItemsWithout(n.gets, c);
      assert multiset(m.superseded) == multiset(n.superseded) + multiset{(c, n.gets[c])};
    } else {
      assert n.gets - {c} == n.gets;
    }
    assert multiset(m.asked) == multiset(n.asked) + multiset{(c, r)};
  }

  lemma AbsorbRequests(n: Node, e: Event)
    requires RequestsAccounted(n)
    ensures RequestsAccounted(Absorb(n, e))
  {
    match e
    case ReceivedBlock(_, b) => AnswerAccounted(n.(ex := AddBlock(n.ex, b)), b);
    case BlockGet(c, r) => AskAccounted(n, c, r);
    case _ =>
  }

  lemma AbsorbSends(n: Node, e: Event)
    requires Safe(n) && SendsAccounted(n) && SentFromStore(n)
    ensures SendsAccounted(Absorb(n, e)) && SentFromStore(Absorb(n, e))
  {
    if !e.ReceivedCancel? {
      AbsorbGrows(n, e);
      var f := Absorb(n, e).ex;
      forall k | 0 <= k < |n.sends|
        ensures HasData(f, n.sends[k].1) && n.payloads[k] == f.datums[Slot(f.cids, n.sends[k].1)]
      {
        ExtendsWant(n.ex, f, n.sends[k]);
      }
    }
  }

  lemma StepAccounted(n: Node, e: Event)
    requires Safe(n) && Accounted(n)
    ensures Accounted(Step(n, e))
  {
    AbsorbRequests(n, e);
    AbsorbSends(n, e);
    ServeAccounted(Absorb(n, e));
  }

  lemma {:induction false} RunAccounted(n: Node, es: seq<Event>)
    requires Safe(n) && Accounted(n)
    ensures Accounted(Run(n, es))
    decreases |es|
  {
    if es != [] {
      StepSafe(n, es[0]);
      StepAccounted(n, es[0]);
      RunAccounted(Step(n, es[0]), es[1..]);
    }
  }

  lemma StartAccounted(cap: nat)
    ensures Safe(Start(cap)) && Accounted(Start(cap))
  {
    assert Start(cap).gets.Items == {};
  }

  /** Every state a node can reach from its start. */
  lemma Reachable(cap: nat, es: seq<Event>)
    ensures var n := Run(Start(cap), es);
      Safe(n) && n.cap == cap && Accounted(n)
  {
    StartAccounted(cap);
    RunSafe(Start(cap), es);
    RunAccounted(Start(cap), es);
  }

  /** No event of the run cancels this want. */
  ghost predicate NoCancelOf(es: seq<Event>, w: Want) {
    ReceivedCancel(w.0, w.1) !in es
  }

  lemma StepHits(n: Node, e: Event)
    ensures Step(n, e).hits ==
      if e.ReceivedCancel? && (e.peer, e.cid) in n.pending then n.hits + [(e.peer, e.cid)] else n.hits
  {
  }

  lemma {:induction false} HitsNeedCancel(n: Node, es: seq<Event>, w: Want)
    requires NoCancelOf(es, w)
    ensures multiset(Run(n, es).hits)[w] == multiset(n.hits)[w]
    decreases |es|
  {
    if es != [] {
      StepHits(n, es[0]);
      assert es[0] in es && forall e | e in es[1..] :: e in es;
      HitsNeedCancel(Step(n, es[0]), es[1..], w);
    }
  }

  /** The same pair is sent twice only with a cancel of it in between: in any stretch of any run
      without such a cancel it is sent at most once, and not at all when it was being sent already. */
  lemma NoResendWithoutCancel(n: Node, es: seq<Event>, w: Want)
    requires Safe(n) && Accounted(n)
    requires NoCancelOf(es, w)
    ensures multiset(Run(n, es).sends)[w] <= multiset(n.sends)[w] + (if w in n.pending then 0 else 1)
  {
    RunAccounted(n, es);
    HitsNeedCancel(n, es, w);
    assert multiset(Run(n, es).sends)[w] == multiset(Run(n, es).pending)[w] + multiset(n.hits)[w];
  }

  // ---------- the store over time ----------

  lemma StepStable(n: Node, e: Event)
    requires Safe(n)
    ensures Safe(Step(n, e))
    ensures n.ex.datums <= Step(n, e).ex.datums
    ensures n.ex.cids[..|n.ex.datums|] == Step(n, e).ex.cids[..|n.ex.datums|]
    ensures forall c | c in Stored(n.ex) :: c in Stored(Step(n, e).ex) && Stored(Step(n, e).ex)[c] == Stored(n.ex)[c]
  {
    StepSafe(n, e);
    assert Step(n, e).ex == Absorb(n, e).ex;
    if e.ReceivedCancel? {
      RemoveWantKeeps(n.ex, e.peer, e.cid);
    } else {
      AbsorbGrows(n, e);
      ExtendsStored(n.ex, Absorb(n, e).ex);
    }
  }

  /** A slot that has data is never touched again, so a block once readable reads the same forever. */
  lemma {:induction false} StoreStable(n: Node, es: seq<Event>)
    requires Safe(n)
    ensures Safe(Run(n, es))
    ensures n.ex.datums <= Run(n, es).ex.datums
    ensures n.ex.cids[..|n.ex.datums|] == Run(n, es).ex.cids[..|n.ex.datums|]
    ensures forall c | c in Stored(n.ex) ::
      c in Stored(Run(n, es).ex) && Stored(Run(n, es).ex)[c] == Stored(n.ex)[c]
    decreases |es|
  {
    if es != [] {
      var m := Step(n, es[0]);
      StepStable(n, es[0]);
      StoreStable(m, es[1..]);
      var d := |n.ex.datums|;
      assert m.ex.cids[..d] == m.ex.cids[..|m.ex.datums|][..d];
      assert Run(n, es).ex.cids[..d] == Run(n, es).ex.cids[..|m.ex.datums|][..d];
    }
  }

  /** What an event does to the exchange. */
  function OpOf(e: Event): (ops: seq<Ledgers.Op>)
    ensures |ops| <= 1
  {
    match e
    case ReceivedBlock(_, b) => [Ledgers.Add(b)]
    case ReceivedWant(p, c) => [Ledgers.Op.Want(p, c)]
    case ReceivedCancel(p, c) => [Ledgers.Unwant(p, c)]
    case BlockAdd(b) => [Ledgers.Add(b)]
    case _ => []
  }

  function Ops(es: seq<Event>): seq<Ledgers.Op> {
    if es == [] then [] else OpOf(es[0]) + Ops(es[1..])
  }

  lemma StepOps(n: Node, e: Event, rest: seq<Ledgers.Op>)
    requires Safe(n)
    ensures Safe(Step(n, e))
    ensures Ledgers.ExchangeRun(n.ex, OpOf(e) + rest, false) == Ledgers.ExchangeRun(Step(n, e).ex, rest, false)
  {
    var ops := OpOf(e);
    StepSafe(n, e);
    assert Step(n, e).ex == Absorb(n, e).ex;
    if ops == [] {
      assert ops + rest == rest;
    } else {
      Ledgers.StepKeepsValid(n.ex, ops[0], false);
      assert (ops + rest)[0] == ops[0] && (ops + rest)[1..] == rest;
    }
  }

  /** The exchange inside a running node is the run of its operations. */
  lemma {:induction false} NodeRunsOps(n: Node, es: seq<Event>)
    requires Safe(n)
    ensures Run(n, es).ex == Ledgers.ExchangeRun(n.ex, Ops(es), false)
    decreases |es|
  {
    if es != [] {
      StepOps(n, es[0], Ops(es[1..]));
      NodeRunsOps(Step(n, es[0]), es[1..]);
    }
  }

  /** Over every run: the exchange inside the node behaves as a map and a list if and only if every
      block added by an event or a command was in place when it came. */
  lemma NodeFollowsExactlyWhenGuarded(n: Node, es: seq<Event>)
    requires Safe(n)
    ensures Run(n, es).ex == Ledgers.ExchangeRun(n.ex, Ops(es), false)
    ensures Ledgers.FollowsLedger(n.ex, Ledgers.Abs(n.ex), Ops(es)) <==> Ledgers.GuardedRun(n.ex, Ops(es))
  {
    NodeRunsOps(n, es);
    Ledgers.FollowsExactlyWhenGuarded(n.ex, Ops(es));
  }

  /** From the start, in terms of the events alone: whenever a block arrives or is added, its CID was
      added before, or every other CID wanted or added so far has been added. */
  lemma NodeFollowsExactlyWhenInOrder(cap: nat, es: seq<Event>)
    ensures Safe(Start(cap))
    ensures Run(Start(cap), es).ex == Ledgers.ExchangeRun(EMPTY, Ops(es), false)
    ensures Ledgers.FollowsLedger(EMPTY, Ledgers.Ledger.Ledger(map[], []), Ops(es))
      <==> Ledgers.AddsInOrder(Ops(es), {}, {})
  {
    NodeRunsOps(Start(cap), es);
    Ledgers.FollowsExactlyWhenInOrder(Ops(es));
  }

  // ---------- block requests ----------

  /** The request is the one waiting for its CID. */
  ghost predicate WaitsFor(n: Node, q: Request) {
    q.0 in n.gets && n.gets[q.0] == q.1
  }

  // What becomes of a request for a CID: the first later event about that CID decides.
  datatype Fate = StillWaiting | AnsweredWith(block: Block) | Superseded

  function FateOf(es: seq<Event>, c: Cid): Fate {
    if es == [] then StillWaiting
    else if es[0].ReceivedBlock? && es[0].block.cid == c then AnsweredWith(es[0].block)
    else if es[0].BlockGet? && es[0].cid == c then Superseded
    else FateOf(es[1..], c)
  }

  /** The request was answered with this block. */
  ghost predicate Got(n: Node, q: Request, b: Block) {
    exists k :: 0 <= k < |n.answered| && k < |n.answers| && n.answered[k] == q && n.answers[k] == b
  }

  ghost predicate Unlogged(n: Node, q: Request) {
    q !in n.answered && q !in n.superseded
  }

  lemma SendingKeepsRequests(n: Node, e: Event)
    ensures var m, a := Step(n, e), Absorb(n, e);
      m.gets == a.gets && m.answered == a.answered && m.answers == a.answers && m.superseded == a.superseded
  {
  }

  lemma StepRequests(n: Node, e: Event)
    requires |n.answers| == |n.answered|
    ensures var m := Step(n, e);
      match e
      case ReceivedBlock(_, b) =>
        m.superseded == n.superseded && m.gets == n.gets - {b.cid} &&
        if b.cid in n.gets then m.answered == n.answered + [(b.cid, n.gets[b.cid])] && m.answers == n.answers + [b]
        else m.answered == n.answered && m.answers == n.answers
      case BlockGet(c, r) =>
        m.answered == n.answered && m.answers == n.answers && m.gets == n.gets[c := r] &&
        m.superseded == if c in n.gets then n.superseded + [(c, n.gets[c])] else n.superseded
      case _ =>
        m.answered == n.answered && m.answers == n.answers && m.gets == n.gets && m.superseded == n.superseded
  {
    SendingKeepsRequests(n, e);
    if e.ReceivedBlock? && e.block.cid !in n.gets { assert n.gets - {e.block.cid} == n.gets; }
  }

  /** A request that is not waiting, and is not made again, keeps the answer it has. */
  lemma {:induction false} SettledRequest(n: Node, q: Request, es: seq<Event>)
    requires |n.answers| == |n.answered| && !WaitsFor(n, q) && BlockGet(q.0, q.1) !in es
    ensures var f := Run(n, es);
      !WaitsFor(f, q) && (q in f.answered <==> q in n.answered) && (q in f.superseded <==> q in n.superseded) &&
      n.answered <= f.answered && n.answers <= f.answers
    decreases |es|
  {
    if es != [] {
      StepRequests(n, es[0]);
      assert es[0] in es && forall e | e in es[1..] :: e in es;
      SettledRequest(Step(n, es[0]), q, es[1..]);
    }
  }

  lemma GotKept(n: Node, f: Node, q: Request, b: Block)
    requires Got(n, q, b) && n.answered <= f.answered && n.answers <= f.answers
    ensures Got(f, q, b)
  {
    var k :| 0 <= k < |n.answered| && k < |n.answers| && n.answered[k] == q && n.answers[k] == b;
    assert f.answered[k] == q && f.answers[k] == b;
  }

  /** The one event that settles a waiting request, and how. */
  lemma StepWaits(n: Node, q: Request, e: Event)
    requires |n.answers| == |n.answered| && WaitsFor(n, q) && Unlogged(n, q) && e != BlockGet(q.0, q.1)
    ensures var m, fate := Step(n, e), FateOf([e], q.0);
      && |m.answers| == |m.answered|
      && (WaitsFor(m, q) <==> fate.StillWaiting?)
      && (q in m.superseded <==> fate.Superseded?)
      && (q in m.answered <==> fate.AnsweredWith?)
      && (fate.AnsweredWith? ==> Got(m, q, fate.block))
  {
    StepRequests(n, e);
    if e.ReceivedBlock? && e.block.cid == q.0 {
      assert Step(n, e).answered[|n.answered|] == q && Step(n, e).answers[|n.answers|] == e.block;
    }
  }

  lemma {:induction false} WaitingRequest(n: Node, q: Request, es: seq<Event>)
    requires |n.answers| == |n.answered| && WaitsFor(n, q) && Unlogged(n, q) && BlockGet(q.0, q.1) !in es
    ensures var f, fate := Run(n, es), FateOf(es, q.0);
      && (WaitsFor(f, q) <==> fate.StillWaiting?)
      && (q in f.superseded <==> fate.Superseded?)
      && (q in f.answered <==> fate.AnsweredWith?)
      && (fate.AnsweredWith? ==> Got(f, q, fate.block))
    decreases |es|
  {
    if es != [] {
      var m := Step(n, es[0]);
      assert es[0] in es && forall e | e in es[1..] :: e in es;
      StepWaits(n, q, es[0]);
      if WaitsFor(m, q) {
        WaitingRequest(m, q, es[1..]);
      } else {
        SettledRequest(m, q, es[1..]);
        if es[0].ReceivedBlock? { GotKept(m, Run(m, es[1..]), q, es[0].block); }
      }
    }
  }

  /** Exactly what becomes of a request, over every run after it: answered if and only if a block for
      its CID is received before the CID is asked for again, and with the first such block; superseded
      if and only if it is asked for again first; waiting if and only if neither happens. What is in
      the store plays no part. Each request has a reply channel of its own. */
  lemma RequestFate(n: Node, c: Cid, r: nat, es: seq<Event>)
    requires RequestsAccounted(n) && Unlogged(n, (c, r)) && !WaitsFor(n, (c, r)) && BlockGet(c, r) !in es
    ensures var f, fate := Run(Step(n, BlockGet(c, r)), es), FateOf(es, c);
      && (WaitsFor(f, (c, r)) <==> fate.StillWaiting?)
      && ((c, r) in f.superseded <==> fate.Superseded?)
      && ((c, r) in f.answered <==> fate.AnsweredWith?)
      && (fate.AnsweredWith? ==> Got(f, (c, r), fate.block))
  {
    StepRequests(n, BlockGet(c, r));
    WaitingRequest(Step(n, BlockGet(c, r)), (c, r), es);
  }

  /** A node that has the block, is asked for it, and gives no answer. */
  lemma StoredBlockNotReturned(cap: nat, b: Block, r: nat)
    ensures var n := Run(Start(cap), [BlockAdd(b), BlockGet(b.cid, r)]);
      Safe(n) && b.cid in Stored(n.ex) && Stored(n.ex)[b.cid] == b.data &&
      WaitsFor(n, (b.cid, r)) && n.answered == [] && n.superseded == []
  {
    var es := [BlockAdd(b), BlockGet(b.cid, r)];
    var n1 := Step(Start(cap), es[0]);
    var n2 := Step(n1, es[1]);
    StepSafe(Start(cap), es[0]);
    StepSafe(n1, es[1]);
    Ledgers.AgreesExactlyInPlace(EMPTY, b);
    assert es[1..] == [es[1]] && es[1..][1..] == [];
    assert Run(Start(cap), es) == Run(n1, es[1..]);
    assert Run(n1, es[1..]) == Run(n2, []);
    assert n2.ex == AddBlock(EMPTY, b);
  }
}
