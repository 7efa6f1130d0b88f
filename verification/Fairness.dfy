/** First come, first served: how long a want can be passed over, and how fast free capacity fills. */
module Fairness {
  import opened Types
  import opened Sequences
  import opened ExchangeSpec
  import opened Scheduler
  import opened SchedulerRuns

  // ---------- exactly when a send starts ----------

  ghost predicate Arrival(e: Event) {
    e.ReceivedBlock? || e.ReceivedWant?
  }

  ghost function Arrivals(es: seq<Event>): nat {
    if es == [] then 0 else (if Arrival(es[0]) then 1 else 0) + Arrivals(es[1..])
  }

  /** Nothing but these can start a send: a block or a want that arrives below the cap, and a cancel
      that ends a send. */
  ghost predicate MakesRoom(n: Node, e: Event) {
    || (Arrival(e) && |n.pending| < n.cap)
    || (e.ReceivedCancel? && (e.peer, e.cid) in n.pending)
  }

  /** The first entry of the want list that has data and is not being sent. */
  ghost predicate FirstToSend(e: Exchange, busy: set<Want>, k: int) {
    && 0 <= k < |e.wants| && HasData(e, e.wants[k].1) && e.wants[k] !in busy
    && forall j | 0 <= j < k :: HasData(e, e.wants[j].1) ==> e.wants[j] in busy
  }

  /** What one event sends, exactly. It starts at most one send: of the first entry that can be sent
      once the event is taken in, when the event makes room and there is such an entry. In every other
      case no send starts and only a cancel of a pair being sent ends one. */
  lemma StepSends(n: Node, e: Event)
    ensures var m, busy := Step(n, e), if e.ReceivedCancel? then n.pending - {(e.peer, e.cid)} else n.pending;
      && (forall k | MakesRoom(n, e) && FirstToSend(m.ex, busy, k) ::
            && m.sends == n.sends + [m.ex.wants[k]]
            && m.payloads == n.payloads + [m.ex.datums[Slot(m.ex.cids, m.ex.wants[k].1)]]
            && m.pending == busy + {m.ex.wants[k]})
      && (!MakesRoom(n, e) || (forall w | w in m.ex.wants && HasData(m.ex, w.1) :: w in busy) ==>
            m.sends == n.sends && m.payloads == n.payloads && m.pending == busy)
  {
    var a, m := Absorb(n, e), Step(n, e);
    AbsorbSendsNothing(n, e);
    if Serves(n, e) { ServesFirst(a); }
  }

  lemma ServesFirst(a: Node)
    ensures var m := Serve(a);
      && m.ex == a.ex
      && (forall k | FirstToSend(a.ex, a.pending, k) ::
            && m.sends == a.sends + [a.ex.wants[k]]
            && m.payloads == a.payloads + [a.ex.datums[Slot(a.ex.cids, a.ex.wants[k].1)]]
            && m.pending == a.pending + {a.ex.wants[k]})
      && ((forall w | w in a.ex.wants && HasData(a.ex, w.1) :: w in a.pending) ==> m == a)
  {
    forall k | FirstToSend(a.ex, a.pending, k) ensures FirstFree(a, 0) == Some(k) {
      assert Free(a, a.ex.wants[k]);
      if FirstFree(a, 0).Some? { assert Free(a, a.ex.wants[FirstFree(a, 0).value]); }
    }
    if FirstFree(a, 0).Some? {
      assert Free(a, a.ex.wants[FirstFree(a, 0).value]);
    }
  }

  lemma AbsorbSendsNothing(n: Node, e: Event)
    ensures var a := Absorb(n, e);
      && a.sends == n.sends && a.payloads == n.payloads
      && a.pending == if e.ReceivedCancel? then n.pending - {(e.peer, e.cid)} else n.pending
  {
    if e.ReceivedCancel? && (e.peer, e.cid) !in n.pending {
      assert n.pending - {(e.peer, e.cid)} == n.pending;
    }
  }

  /** Every send is paid for by an arrival or by a cancel that ended one: over every run the sends
      started are no more than those two together. */
  lemma {:induction false} SendsPaidFor(n: Node, es: seq<Event>)
    ensures |Run(n, es).sends| - |n.sends| <= Arrivals(es) + (|Run(n, es).hits| - |n.hits|)
    decreases |es|
  {
    if es != [] {
      StepPaidFor(n, es[0]);
      SendsPaidFor(Step(n, es[0]), es[1..]);
    }
  }

  lemma StepPaidFor(n: Node, e: Event)
    ensures |Step(n, e).sends| - |n.sends| <= (if Arrival(e) then 1 else 0) + (|Step(n, e).hits| - |n.hits|)
  {
    StepHits(n, e);
    StepSends(n, e);
  }

  // ---------- bounded overtaking ----------

  /** The want could be sent now: it is on the list, its data is stored, and it is not being sent. */
  ghost predicate Waiting(n: Node, w: Want) {
    w in n.ex.wants && Free(n, w)
  }

  /** Entries ahead of the first entry for `w` that are not being sent: all that can go before it. */
  ghost function Ahead(ws: seq<Want>, pending: set<Want>, w: Want): (a: nat)
    ensures forall k | 0 <= k < |ws| && ws[k] == w :: a <= k
  {
    if ws == [] || ws[0] == w then 0
    else (if ws[0] in pending then 0 else 1) + Ahead(ws[1..], pending, w)
  }

  /** Growth of the list, and renaming of entries that are not being sent, change nothing ahead of `w`. */
  lemma {:induction false} AheadSame(ws: seq<Want>, vs: seq<Want>, pending: set<Want>, w: Want)
    requires |ws| <= |vs| && w in ws
    requires forall k | 0 <= k < |ws| :: (ws[k] == w <==> vs[k] == w) && (ws[k] in pending <==> vs[k] in pending)
    ensures Ahead(vs, pending, w) == Ahead(ws, pending, w)
  {
    if ws[0] != w {
      AheadSame(ws[1..], vs[1..], pending, w);
    }
  }

  lemma {:induction false} AheadShrinks(ws: seq<Want>, pending: set<Want>, v: Want, w: Want)
    ensures Ahead(ws, pending + {v}, w) <= Ahead(ws, pending, w)
  {
    if ws != [] { AheadShrinks(ws[1..], pending, v, w); }
  }

  /** Sending the first free entry, when it is not `w`, leaves strictly less ahead of `w`. */
  lemma {:induction false} AheadAfterSend(ws: seq<Want>, pending: set<Want>, k: nat, w: Want)
    requires k < |ws| && ws[k] !in pending && w !in ws[..k + 1]
    ensures Ahead(ws, pending + {ws[k]}, w) < Ahead(ws, pending, w)
  {
    assert ws[0] in ws[..k + 1];
    if k == 0 {
      AheadShrinks(ws[1..], pending, ws[0], w);
    } else {
      assert ws[1..][..k] == ws[..k + 1][1..];
      AheadAfterSend(ws[1..], pending, k - 1, w);
    }
  }

  lemma {:induction false} AheadAfterCancel(ws: seq<Want>, pending: set<Want>, v: Want, w: Want)
    requires v != w
    ensures Ahead(Filter(ws, OtherThan(v)), pending - {v}, w) <= Ahead(ws, pending, w)
  {
    if ws != [] {
      AheadAfterCancel(ws[1..], pending, v, w);
      var rest := Filter(ws[1..], OtherThan(v));
      assert ([ws[0]] + rest)[1..] == rest && [] + rest == rest;
    }
  }

  lemma AbsorbWaiting(n: Node, e: Event, w: Want)
    requires Safe(n) && Waiting(n, w) && e != ReceivedCancel(w.0, w.1)
    ensures var m := Absorb(n, e);
      Waiting(m, w) && m.sends == n.sends && Ahead(m.ex.wants, m.pending, w) <= Ahead(n.ex.wants, n.pending, w)
  {
    var m := Absorb(n, e);
    if e.ReceivedCancel? {
      var v := (e.peer, e.cid);
      RemoveWantKeeps(n.ex, v.0, v.1);
      AheadAfterCancel(n.ex.wants, n.pending, v, w);
      if v !in n.pending { assert n.pending - {v} == n.pending; }
    } else {
      AbsorbGrows(n, e);
      ExtendsWant(n.ex, m.ex, w);
      AheadSame(n.ex.wants, m.ex.wants, n.pending, w);
    }
  }

  lemma ServeWaiting(n: Node, w: Want)
    requires Waiting(n, w)
    ensures var m := Serve(n);
      m.sends == n.sends + [w] ||
      (Waiting(m, w) && |m.sends| == |n.sends| + 1 && n.sends <= m.sends && w != m.sends[|n.sends|] &&
       Ahead(m.ex.wants, m.pending, w) < Ahead(n.ex.wants, n.pending, w))
  {
    var j :| 0 <= j < |n.ex.wants| && n.ex.wants[j] == w;
    var k := FirstFree(n, 0).value;
    if n.ex.wants[k] != w {
      AheadAfterSend(n.ex.wants, n.pending, k, w);
    }
  }

  /** One event while `w` waits: `w` is sent, or it still waits and every send made was paid for by
      an entry ahead of it. A cancel that ends a send always starts another. */
  lemma StepWaiting(n: Node, e: Event, w: Want)
    requires Safe(n) && Waiting(n, w) && e != ReceivedCancel(w.0, w.1)
    ensures var m := Step(n, e);
      n.sends <= m.sends && |m.hits| - |n.hits| <= |m.sends| - |n.sends| &&
      (m.sends == n.sends + [w] ||
       (Waiting(m, w) && w !in m.sends[|n.sends|..] &&
        Ahead(m.ex.wants, m.pending, w) + (|m.sends| - |n.sends|) <= Ahead(n.ex.wants, n.pending, w)))
  {
    AbsorbWaiting(n, e, w);
    StepHits(n, e);
    if Serves(n, e) { ServeWaiting(Absorb(n, e), w); }
  }

  lemma {:induction false} SendsGrow(n: Node, es: seq<Event>)
    ensures n.sends <= Run(n, es).sends
    decreases |es|
  {
    if es != [] {
      StepSendsGrow(n, es[0]);
      SendsGrow(Step(n, es[0]), es[1..]);
    }
  }

  lemma StepSendsGrow(n: Node, e: Event)
    ensures n.sends <= Step(n, e).sends
  {
  }

  lemma NotSentYet(was: seq<Want>, now: seq<Want>, all: seq<Want>, w: Want, t: nat)
    requires was <= now <= all && |was| < t <= |all| && w !in all[|was|..t]
    ensures now != was + [w]
    ensures |now| <= t ==> w !in all[|now|..t]
  {
    assert all[|was|..t][0] == all[|was|];
    assert |now| <= t ==> all[|now|..t] == all[|was|..t][|now| - |was|..];
  }

  /** In any run that never cancels `w`, at most `Ahead` sends of other wants come before `w` is sent;
      in particular at most its position in the list. */
  lemma {:induction false} BoundedOvertaking(n: Node, es: seq<Event>, w: Want, t: nat)
    requires Safe(n) && Waiting(n, w) && NoCancelOf(es, w)
    requires |n.sends| <= t <= |Run(n, es).sends| && w !in Run(n, es).sends[|n.sends|..t]
    ensures t - |n.sends| <= Ahead(n.ex.wants, n.pending, w)
    ensures forall k | 0 <= k < |n.ex.wants| && n.ex.wants[k] == w :: t - |n.sends| <= k
    decreases |es|
  {
    if es != [] && t > |n.sends| {
      var m := Step(n, es[0]);
      assert es[0] in es && forall e | e in es[1..] :: e in es;
      StepWaiting(n, es[0], w);
      StepSafe(n, es[0]);
      SendsGrow(m, es[1..]);
      NotSentYet(n.sends, m.sends, Run(n, es).sends, w, t);
      if |m.sends| <= t { BoundedOvertaking(m, es[1..], w, t); }
    }
  }

  /** No want starves: among any `Ahead + 1` cancels that end a send, one hands its place to `w`,
      unless a cancel of `w` itself came first. */
  lemma {:induction false} NoStarvation(n: Node, es: seq<Event>, w: Want)
    requires Safe(n) && Waiting(n, w) && NoCancelOf(es, w)
    requires |Run(n, es).hits| - |n.hits| > Ahead(n.ex.wants, n.pending, w)
    ensures n.sends <= Run(n, es).sends && w in Run(n, es).sends[|n.sends|..]
    decreases |es|
  {
    SendsGrow(n, es);
    var m := Step(n, es[0]);
    assert es[0] in es && forall e | e in es[1..] :: e in es;
    StepWaiting(n, es[0], w);
    StepSafe(n, es[0]);
    SendsGrow(m, es[1..]);
    var all := Run(n, es).sends;
    if m.sends == n.sends + [w] {
      assert all[|n.sends|..][0] == w;
    } else {
      NoStarvation(m, es[1..], w);
      assert all[|m.sends|..] == all[|n.sends|..][|m.sends| - |n.sends|..];
    }
  }

  // ---------- progress ----------

  /** The distinct wanted pairs whose data is stored. */
  ghost function ServablePairs(n: Node): set<Want> {
    set w | w in n.ex.wants && HasData(n.ex, w.1)
  }

  function Min(a: int, b: int): int { if a <= b then a else b }

  lemma SubsetSize<T>(a: set<T>, b: set<T>)
    requires a <= b
    ensures |a| <= |b|
  {
    if a != {} {
      var x :| x in a;
      SubsetSize(a - {x}, b - {x});
    }
  }

  /** Without cancels nothing is lost, and an arriving block or want starts a send unless the cap is
      reached or everything that can be sent is being sent. */
  lemma StepProgress(n: Node, e: Event)
    requires Safe(n) && !e.ReceivedCancel?
    ensures var m := Step(n, e);
      n.pending <= m.pending && ServablePairs(n) <= ServablePairs(m) && m.cap == n.cap &&
      (Arrival(e) ==> |m.pending| >= n.cap || |m.pending| == |n.pending| + 1 || ServablePairs(m) <= m.pending)
  {
    var a, m := Absorb(n, e), Step(n, e);
    AbsorbGrows(n, e);
    forall w | w in ServablePairs(n) ensures w in ServablePairs(a) {
      ExtendsWant(n.ex, a.ex, w);
    }
    assert m.ex == a.ex;
    if Serves(n, e) && FirstFree(a, 0).None? {
      forall w | w in ServablePairs(m) ensures w in m.pending {
        var k :| 0 <= k < |a.ex.wants| && a.ex.wants[k] == w;
        assert !Free(a, a.ex.wants[k]);
      }
    }
  }

  /** The least of the cap, the sends in progress plus `k`, and the distinct pairs that can be sent. */
  ghost function Floor(n: Node, k: nat): int {
    Min(n.cap, Min(|n.pending| + k, |ServablePairs(n)|))
  }

  lemma StepRaisesFloor(n: Node, e: Event, k: nat)
    requires Safe(n) && !e.ReceivedCancel?
    ensures var m := Step(n, e);
      Safe(m) && |n.pending| <= |m.pending| &&
      (|m.pending| >= Floor(n, k) || Floor(m, if Arrival(e) && k > 0 then k - 1 else k) >= Floor(n, k))
  {
    var m := Step(n, e);
    StepProgress(n, e);
    StepSafe(n, e);
    SubsetSize(n.pending, m.pending);
    SubsetSize(ServablePairs(n), ServablePairs(m));
    if ServablePairs(m) <= m.pending { SubsetSize(ServablePairs(m), m.pending); }
  }

  /** After `k` arrivals and no cancel, the sends in progress number at least the least of the cap,
      the starting number plus `k`, and the number of distinct pairs that could be sent at the start. */
  lemma {:induction false} Progress(n: Node, es: seq<Event>)
    requires Safe(n) && forall e | e in es :: !e.ReceivedCancel?
    ensures |Run(n, es).pending| >= Floor(n, Arrivals(es))
    ensures |Run(n, es).pending| >= |n.pending|
    decreases |es|
  {
    if es != [] {
      assert es[0] in es && forall e | e in es[1..] :: e in es;
      StepRaisesFloor(n, es[0], Arrivals(es));
      Progress(Step(n, es[0]), es[1..]);
    }
  }
}
