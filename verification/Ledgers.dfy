/** The simple thing a block exchange stands for: a map from CID to data and an ordered want list.
    The documented layout of `add_block` implements it on every run; the code as written implements
    it exactly on the runs that keep to a condition any caller can check. */
module Ledgers {
  import opened Types
  import opened Sequences
  import opened ExchangeSpec

  datatype Ledger = Ledger(stored: map<Cid, Bytes>, wants: seq<Want>)

  ghost function Abs(e: Exchange): Ledger
    requires Valid(e)
  {
    Ledger(Stored(e), e.wants)
  }

  datatype Op =
    | Want(peer: PeerId, cid: Cid)
    | Unwant(peer: PeerId, cid: Cid)
    | UnwantAll(cid: Cid)
    | Add(block: Block)

  ghost function LedgerStep(l: Ledger, op: Op): Ledger {
    match op
    case Want(p, c) => l.(wants := l.wants + [(p, c)])
    case Unwant(p, c) => l.(wants := Filter(l.wants, OtherThan((p, c))))
    case UnwantAll(c) => l.(wants := Filter(l.wants, NotFor(c)))
    case Add(b) => if b.cid in l.stored then l else l.(stored := l.stored[b.cid := b.data])
  }

  /** One operation on the vectors; `documented` picks the layout comment's `add_block`. */
  ghost function ExchangeStep(e: Exchange, op: Op, documented: bool): Exchange
    requires Valid(e)
  {
    match op
    case Want(p, c) => AddWant(e, p, c)
    case Unwant(p, c) => RemoveWant(e, p, c)
    case UnwantAll(c) => RemoveWants(e, c)
    case Add(b) => if documented then AddBlockDocumented(e, b) else AddBlock(e, b)
  }

  ghost function LedgerRun(l: Ledger, ops: seq<Op>): Ledger
    decreases |ops|
  {
    if ops == [] then l else LedgerRun(LedgerStep(l, ops[0]), ops[1..])
  }

  ghost function ExchangeRun(e: Exchange, ops: seq<Op>, documented: bool): (f: Exchange)
    requires Valid(e)
    ensures Valid(f)
    decreases |ops|
  {
    if ops == [] then e
    else
      StepKeepsValid(e, ops[0], documented);
      ExchangeRun(ExchangeStep(e, ops[0], documented), ops[1..], documented)
  }

  lemma StepKeepsValid(e: Exchange, op: Op, documented: bool)
    requires Valid(e)
    ensures Valid(ExchangeStep(e, op, documented))
  {
    match op
    case Want(p, c) => AddWantExtends(e, p, c);
    case Unwant(p, c) => RemoveWantKeeps(e, p, c);
    case UnwantAll(c) => RemoveWantsKeeps(e, c);
    case Add(b) => if documented { DocumentedStores(e, b); } else { AddBlockExtends(e, b); }
  }

  lemma RemoveWantsKeeps(e: Exchange, c: Cid)
    requires Valid(e)
    ensures Valid(RemoveWants(e, c)) && Stored(RemoveWants(e, c)) == Stored(e)
    ensures forall w :: w in RemoveWants(e, c).wants <==> w in e.wants && w.1 != c
  {
    var f := RemoveWants(e, c);
    forall w ensures w in f.wants <==> w in e.wants && w.1 != c {
      FilterMember(e.wants, NotFor(c), w);
    }
    forall k | 0 <= k < |f.wants| ensures f.wants[k].1 in f.cids {
      assert f.wants[k] in e.wants;
    }
  }

  // ---------- storing one more block ----------

  /** Data pushed behind `datums` belongs to whatever CID is in that slot. */
  lemma NextSlot(e: Exchange, f: Exchange, data: Bytes)
    requires Valid(e) && Valid(f)
    requires f.datums == e.datums + [data]
    requires f.cids[..|e.datums|] == e.cids[..|e.datums|]
    ensures f.cids[|e.datums|] !in Stored(e)
    ensures Stored(f) == Stored(e)[f.cids[|e.datums|] := data]
  {
    var d := |e.datums|;
    forall k | 0 <= k < d ensures f.cids[k] == e.cids[k] {
      assert f.cids[..d][k] == e.cids[..d][k];
    }
    forall c ensures HasData(f, c) <==> HasData(e, c) || c == f.cids[d] {
      if HasData(e, c) { assert f.cids[Slot(e.cids, c)] == c; }
      if HasData(f, c) && c != f.cids[d] { assert e.cids[Slot(f.cids, c)] == c; }
    }
  }

  /** The arriving CID, known or just appended, moves to slot `d`; nothing before `d` moves. */
  lemma MovedToSlot(e: Exchange, known: seq<Cid>, c: Cid)
    requires Valid(e) && !HasData(e, c)
    requires known == if c in e.cids then e.cids else e.cids + [c]
    ensures Distinct(known) && c in known && |e.datums| <= Slot(known, c)
    ensures var cids := Swapped(known, |e.datums|, Slot(known, c));
      cids[|e.datums|] == c && cids[..|e.datums|] == e.cids[..|e.datums|] && Distinct(cids) &&
      forall x | x in e.cids :: x in cids
  {
    var d, i := |e.datums|, Slot(known, c);
    if c !in e.cids { AppendedDistinct(e.cids, c); }
    SwappedDistinct(known, d, i);
  }

  lemma {:induction false} DocumentedStores(e: Exchange, b: Block)
    requires Valid(e)
    ensures Valid(AddBlockDocumented(e, b))
    ensures Abs(AddBlockDocumented(e, b)) == LedgerStep(Abs(e), Add(b))
  {
    if !HasData(e, b.cid) {
      var known := if b.cid in e.cids then e.cids else e.cids + [b.cid];
      MovedToSlot(e, known, b.cid);
      var f := AddBlockDocumented(e, b);
      assert f.datums == e.datums + [b.data];
      NextSlot(e, f, b.data);
    }
  }

  /** The CID whose slot the code as written gives to data arriving for `c`. */
  ghost function Owner(e: Exchange, c: Cid): Cid
    requires Valid(e) && !HasData(e, c)
  {
    var d := |e.datums|;
    if c in e.cids then if Slot(e.cids, c) == d then e.cids[|e.cids| - 1] else e.cids[d]
    else if d == |e.cids| then c else e.cids[d]
  }

  /** What `add_block` as written does to the stored blocks, in every case: the data goes to `Owner`. */
  lemma AsWrittenStores(e: Exchange, b: Block)
    requires Valid(e) && b.cid !in Stored(e)
    ensures Valid(AddBlock(e, b))
    ensures Stored(AddBlock(e, b)) == Stored(e)[Owner(e, b.cid) := b.data]
  {
    AddBlockExtends(e, b);
    OwnerSlot(e, b);
    var f := AddBlock(e, b);
    assert f.datums == e.datums + [b.data];
    NextSlot(e, f, b.data);
  }

  /** Wants survive untouched exactly when the arriving CID is new, sits in the last slot, or nobody
      wants it. Otherwise no want for it is left: each now names the CID of the last slot. */
  lemma AsWrittenWants(e: Exchange, b: Block)
    requires Valid(e) && b.cid !in Stored(e)
    ensures var f := AddBlock(e, b);
      && (f.wants == e.wants <==>
            b.cid !in e.cids || b.cid == e.cids[|e.cids| - 1] || forall w | w in e.wants :: w.1 != b.cid)
      && (b.cid in e.cids && b.cid != e.cids[|e.cids| - 1] ==>
            (forall w | w in f.wants :: w.1 != b.cid) &&
            forall p: PeerId | (p, b.cid) in e.wants :: (p, e.cids[|e.cids| - 1]) in f.wants)
  {
    var f := AddBlock(e, b);
    if b.cid in e.cids {
      var last := e.cids[|e.cids| - 1];
      assert forall k | 0 <= k < |e.wants| ::
        f.wants[k] == if e.wants[k].1 == b.cid then (e.wants[k].0, last) else e.wants[k];
      if exists w :: w in e.wants && w.1 == b.cid {
        var w :| w in e.wants && w.1 == b.cid;
        var k :| 0 <= k < |e.wants| && e.wants[k] == w;
        assert f.wants[k] == (w.0, last);
      }
      forall p: PeerId | (p, b.cid) in e.wants ensures (p, last) in f.wants {
        var k :| 0 <= k < |e.wants| && e.wants[k] == (p, b.cid);
        assert f.wants[k] == (p, last);
      }
    }
  }

  lemma OwnerSlot(e: Exchange, b: Block)
    requires Valid(e) && !HasData(e, b.cid)
    ensures |AddBlock(e, b).cids| > |e.datums|
    ensures AddBlock(e, b).cids[|e.datums|] == Owner(e, b.cid)
  {
  }

  lemma OwnerIsArrivalExactlyInPlace(e: Exchange, c: Cid)
    requires Valid(e) && !HasData(e, c)
    ensures Owner(e, c) == c <==> InPlace(e, c)
  {
  }

  /** What a caller can check before calling `add_block`. */
  ghost predicate InPlace(e: Exchange, c: Cid) {
    || HasData(e, c)
    || (c in e.cids && |e.cids| == |e.datums| + 1)
    || (c !in e.cids && |e.cids| == |e.datums|)
  }

  lemma OnlyUnstored(e: Exchange, c: Cid)
    requires Valid(e) && !HasData(e, c) && c in e.cids && |e.cids| == |e.datums| + 1
    ensures e.cids[|e.cids| - 1] == c
  {
  }

  /** `add_block` as written stores its block and leaves the wants alone exactly when the arriving CID
      is stored already, is the only CID without data, or is new while every CID has data. */
  lemma {:induction false} AgreesExactlyInPlace(e: Exchange, b: Block)
    requires Valid(e)
    ensures Valid(AddBlock(e, b))
    ensures Abs(AddBlock(e, b)) == LedgerStep(Abs(e), Add(b)) <==> InPlace(e, b.cid)
  {
    if !HasData(e, b.cid) {
      AsWrittenStores(e, b);
      AsWrittenWants(e, b);
      OwnerIsArrivalExactlyInPlace(e, b.cid);
      if InPlace(e, b.cid) {
        if b.cid in e.cids { OnlyUnstored(e, b.cid); }
      } else {
        assert b.cid !in Stored(AddBlock(e, b));
      }
    }
  }

  // ---------- whole runs ----------

  /** The documented layout represents the ledger over every sequence of operations. */
  lemma {:induction false} DocumentedRefines(e: Exchange, ops: seq<Op>)
    requires Valid(e)
    ensures Abs(ExchangeRun(e, ops, true)) == LedgerRun(Abs(e), ops)
    decreases |ops|
  {
    if ops != [] {
      StepKeepsValid(e, ops[0], true);
      StepRefines(e, ops[0], true);
      DocumentedRefines(ExchangeStep(e, ops[0], true), ops[1..]);
    }
  }

  lemma StepRefines(e: Exchange, op: Op, documented: bool)
    requires Valid(e)
    ensures Valid(ExchangeStep(e, op, documented))
    ensures Abs(ExchangeStep(e, op, documented)) == LedgerStep(Abs(e), op)
      <==> (documented || !op.Add? || InPlace(e, op.block.cid))
  {
    StepKeepsValid(e, op, documented);
    match op
    case Want(p, c) =>
      var f := AddWant(e, p, c);
      if c !in e.cids { AppendedDistinct(e.cids, c); }
    case Unwant(p, c) => RemoveWantKeeps(e, p, c);
    case UnwantAll(c) => RemoveWantsKeeps(e, c);
    case Add(b) => if documented { DocumentedStores(e, b); } else { AgreesExactlyInPlace(e, b); }
  }

  /** At every `add_block` of the run as written, the caller's check holds. */
  ghost predicate GuardedRun(e: Exchange, ops: seq<Op>)
    requires Valid(e)
    decreases |ops|
  {
    ops == [] ||
    (StepKeepsValid(e, ops[0], false);
     (ops[0].Add? ==> InPlace(e, ops[0].block.cid)) &&
     GuardedRun(ExchangeStep(e, ops[0], false), ops[1..]))
  }

  /** The run as written follows the ledger after every one of its operations. */
  ghost predicate FollowsLedger(e: Exchange, l: Ledger, ops: seq<Op>)
    requires Valid(e)
    decreases |ops|
  {
    Abs(e) == l &&
    (ops == [] ||
     (StepKeepsValid(e, ops[0], false);
      FollowsLedger(ExchangeStep(e, ops[0], false), LedgerStep(l, ops[0]), ops[1..])))
  }

  /** Over every run: the code as written behaves as the map and the list it stands for if and only
      if each of its `add_block` calls is in place. */
  lemma {:induction false} FollowsExactlyWhenGuarded(e: Exchange, ops: seq<Op>)
    requires Valid(e)
    ensures FollowsLedger(e, Abs(e), ops) <==> GuardedRun(e, ops)
    decreases |ops|
  {
    if ops != [] {
      StepRefines(e, ops[0], false);
      var f := ExchangeStep(e, ops[0], false);
      FollowsExactlyWhenGuarded(f, ops[1..]);
      if Abs(f) != LedgerStep(Abs(e), ops[0]) {
        assert !FollowsLedger(f, LedgerStep(Abs(e), ops[0]), ops[1..]);
      }
    }
  }

  /** The CIDs the exchange knows, with data or without. */
  ghost function Known(e: Exchange): set<Cid> {
    set c | c in e.cids
  }

  /** The condition on one call, read off from what was asked for and what was added. */
  lemma InPlaceMeans(e: Exchange, c: Cid)
    requires Valid(e)
    ensures InPlace(e, c) <==> c in Stored(e) || Known(e) - {c} <= Stored(e).Keys
  {
    var d := |e.datums|;
    if Known(e) - {c} <= Stored(e).Keys {
      forall k | d <= k < |e.cids| ensures e.cids[k] == c {
        assert e.cids[k] in Known(e);
        assert !HasData(e, e.cids[k]);
      }
      if d < |e.cids| { assert e.cids[d] == c == e.cids[|e.cids| - 1]; }
    }
    if InPlace(e, c) && !HasData(e, c) {
      forall x | x in Known(e) - {c} ensures x in Stored(e) {
        var k := Slot(e.cids, x);
        if c in e.cids { OnlyUnstored(e, c); }
      }
    }
  }

  /** At each add, the CID was added before, or all other CIDs named so far by a want or an add have
      been added. Only the operations are looked at. */
  ghost predicate AddsInOrder(ops: seq<Op>, named: set<Cid>, added: set<Cid>)
    decreases |ops|
  {
    ops == [] ||
    match ops[0]
    case Want(_, c) => AddsInOrder(ops[1..], named + {c}, added)
    case Add(b) =>
      (b.cid in added || named - {b.cid} <= added) &&
      AddsInOrder(ops[1..], named + {b.cid}, added + {b.cid})
    case _ => AddsInOrder(ops[1..], named, added)
  }

  lemma StepNames(e: Exchange, op: Op)
    requires Valid(e) && (op.Add? ==> InPlace(e, op.block.cid))
    ensures Valid(ExchangeStep(e, op, false))
    ensures var f := ExchangeStep(e, op, false);
      match op
      case Want(_, c) => Known(f) == Known(e) + {c} && Stored(f).Keys == Stored(e).Keys
      case Add(b) => Known(f) == Known(e) + {b.cid} && Stored(f).Keys == Stored(e).Keys + {b.cid}
      case _ => Known(f) == Known(e) && Stored(f).Keys == Stored(e).Keys
  {
    StepRefines(e, op, false);
    match op
    case Want(_, c) => if c !in e.cids { AppendedDistinct(e.cids, c); }
    case Add(b) =>
      if !HasData(e, b.cid) {
        if b.cid in e.cids {
          SwappedDistinct(e.cids, |e.cids| - 1, Slot(e.cids, b.cid));
        } else {
          AppendedDistinct(e.cids, b.cid);
        }
      }
    case _ =>
  }

  lemma {:induction false} GuardedMeansInOrder(e: Exchange, ops: seq<Op>)
    requires Valid(e)
    ensures GuardedRun(e, ops) <==> AddsInOrder(ops, Known(e), Stored(e).Keys)
    decreases |ops|
  {
    if ops != [] {
      StepKeepsValid(e, ops[0], false);
      if ops[0].Add? { InPlaceMeans(e, ops[0].block.cid); }
      if ops[0].Add? ==> InPlace(e, ops[0].block.cid) {
        StepNames(e, ops[0]);
        GuardedMeansInOrder(ExchangeStep(e, ops[0], false), ops[1..]);
      }
    }
  }

  /** The same for a whole life of the exchange, from the operations alone: the code as written is the
      map and the list it stands for if and only if its adds come in order. */
  lemma FollowsExactlyWhenInOrder(ops: seq<Op>)
    ensures Valid(EMPTY)
    ensures FollowsLedger(EMPTY, Ledger(map[], []), ops) <==> AddsInOrder(ops, {}, {})
  {
    assert Known(EMPTY) == {} && Stored(EMPTY).Keys == {} && Abs(EMPTY) == Ledger(map[], []);
    FollowsExactlyWhenGuarded(EMPTY, ops);
    GuardedMeansInOrder(EMPTY, ops);
  }

  /** The CIDs named by a want or an add. */
  ghost function NamedBy(op: Op): set<Cid> {
    match op
    case Want(_, c) => {c}
    case Add(b) => {b.cid}
    case _ => {}
  }

  ghost function AllNamed(ops: seq<Op>): set<Cid> {
    if ops == [] then {} else NamedBy(ops[0]) + AllNamed(ops[1..])
  }

  /** No operation forgets a CID, in place or not: over every run the exchange knows exactly the CIDs it
      knew and those that were named. */
  lemma {:induction false} NothingForgotten(e: Exchange, ops: seq<Op>)
    requires Valid(e)
    ensures Known(ExchangeRun(e, ops, false)) == Known(e) + AllNamed(ops)
    decreases |ops|
  {
    if ops != [] {
      StepKeepsValid(e, ops[0], false);
      StepForgetsNothing(e, ops[0]);
      NothingForgotten(ExchangeStep(e, ops[0], false), ops[1..]);
    }
  }

  lemma StepForgetsNothing(e: Exchange, op: Op)
    requires Valid(e)
    ensures Known(ExchangeStep(e, op, false)) == Known(e) + NamedBy(op)
  {
    match op
    case Want(_, c) => if c !in e.cids { AppendedDistinct(e.cids, c); }
    case Add(b) =>
      if b.cid !in e.cids {
        AppendedDistinct(e.cids, b.cid);
      } else if !HasData(e, b.cid) {
        SwappedDistinct(e.cids, |e.cids| - 1, Slot(e.cids, b.cid));
      }
    case _ =>
  }

  // ---------- the code as written, over every run ----------

  /** All that the code as written depends on: what is stored, the line of CIDs that wait for data, and
      the wants. */
  datatype Shelf = Shelf(stored: map<Cid, Bytes>, line: seq<Cid>, wants: seq<Want>)

  ghost function ShelfOf(e: Exchange): Shelf
    requires Valid(e)
  {
    Shelf(Stored(e), e.cids[|e.datums|..], e.wants)
  }

  /** The line when data for `c` arrives: `c` trades places with the last in line, or joins the end. */
  ghost function LineFor(line: seq<Cid>, c: Cid): (r: seq<Cid>)
    ensures r != []
  {
    if c in line then Swapped(line, Slot(line, c), |line| - 1) else line + [c]
  }

  /** Data that arrives goes to whoever is first in that line. */
  ghost function ShelfStep(s: Shelf, op: Op): Shelf {
    match op
    case Want(p, c) =>
      s.(line := if c in s.stored || c in s.line then s.line else s.line + [c], wants := s.wants + [(p, c)])
    case Unwant(p, c) => s.(wants := Filter(s.wants, OtherThan((p, c))))
    case UnwantAll(c) => s.(wants := Filter(s.wants, NotFor(c)))
    case Add(b) =>
      if b.cid in s.stored then s
      else
        var line := LineFor(s.line, b.cid);
        Shelf(s.stored[line[0] := b.data], line[1..],
              if b.cid in s.line then Renamed(s.wants, b.cid, s.line[|s.line| - 1]) else s.wants)
  }

  ghost function ShelfRun(s: Shelf, ops: seq<Op>): Shelf
    decreases |ops|
  {
    if ops == [] then s else ShelfRun(ShelfStep(s, ops[0]), ops[1..])
  }

  /** A CID stands in the line exactly when it is known without data. */
  lemma InLine(e: Exchange, c: Cid)
    requires Valid(e)
    ensures c in e.cids[|e.datums|..] <==> c in e.cids && !HasData(e, c)
    ensures c in e.cids[|e.datums|..] ==> Slot(e.cids[|e.datums|..], c) == Slot(e.cids, c) - |e.datums|
  {
    var d, line := |e.datums|, e.cids[|e.datums|..];
    if c in line { assert e.cids[d + Slot(line, c)] == c; }
    if c in e.cids && !HasData(e, c) { assert line[Slot(e.cids, c) - d] == c; }
  }

  lemma LineAfterAdd(e: Exchange, b: Block)
    requires Valid(e) && !HasData(e, b.cid)
    ensures AddBlock(e, b).cids[|e.datums|..] == LineFor(e.cids[|e.datums|..], b.cid)
  {
    InLine(e, b.cid);
    if b.cid in e.cids {
      SwappedTail(e.cids, |e.datums|, Slot(e.cids, b.cid), |e.cids| - 1);
    } else {
      assert AddBlock(e, b).cids == e.cids + [b.cid];
    }
  }

  lemma SwappedTail(cids: seq<Cid>, d: nat, i: nat, j: nat)
    requires d <= i <= j < |cids|
    ensures Swapped(cids, j, i)[d..] == Swapped(cids[d..], i - d, j - d)
  {
  }

  lemma StepIsShelf(e: Exchange, op: Op)
    requires Valid(e)
    ensures Valid(ExchangeStep(e, op, false))
    ensures ShelfOf(ExchangeStep(e, op, false)) == ShelfStep(ShelfOf(e), op)
  {
    StepKeepsValid(e, op, false);
    var f := ExchangeStep(e, op, false);
    match op
    case Want(p, c) =>
      StepRefines(e, op, false);
      InLine(e, c);
      SlotsAfterWant(e, p, c);
    case Unwant(p, c) => RemoveWantKeeps(e, p, c);
    case UnwantAll(c) => RemoveWantsKeeps(e, c);
    case Add(b) =>
      if !HasData(e, b.cid) { AddIsShelf(e, b); }
  }

  lemma AddIsShelf(e: Exchange, b: Block)
    requires Valid(e) && !HasData(e, b.cid)
    ensures Valid(AddBlock(e, b))
    ensures ShelfOf(AddBlock(e, b)) == ShelfStep(ShelfOf(e), Add(b))
  {
    AddBlockExtends(e, b);
    FirstInLine(e, b);
    InLine(e, b.cid);
  }

  lemma FirstInLine(e: Exchange, b: Block)
    requires Valid(e) && !HasData(e, b.cid) && Valid(AddBlock(e, b)) && Extends(e, AddBlock(e, b))
    ensures var line, f := LineFor(e.cids[|e.datums|..], b.cid), AddBlock(e, b);
      Stored(f) == Stored(e)[line[0] := b.data] && f.cids[|f.datums|..] == line[1..]
  {
    var d, f := |e.datums|, AddBlock(e, b);
    LineAfterAdd(e, b);
    SlotsAfterAdd(e, b);
    NextSlot(e, f, b.data);
    assert f.cids[d] == f.cids[d..][0];
    assert f.cids[d + 1..] == f.cids[d..][1..];
  }

  /** Over every run, whatever comes in whatever order: the code as written files each new block under
      the CID that is first in line, and the line, the store and the wants are exactly these. */
  lemma {:induction false} AsWrittenIsShelf(e: Exchange, ops: seq<Op>)
    requires Valid(e)
    ensures ShelfOf(ExchangeRun(e, ops, false)) == ShelfRun(ShelfOf(e), ops)
    decreases |ops|
  {
    if ops != [] {
      StepIsShelf(e, ops[0]);
      AsWrittenIsShelf(ExchangeStep(e, ops[0], false), ops[1..]);
    }
  }

  /** Two wants and two blocks: the first block's data is filed under the other wanted CID, the second's
      under the first block's CID, and the second block's own CID is left waiting at the end. */
  lemma TwoBlocksMisfiled(p: PeerId, q: PeerId, c1: Cid, c2: Cid, c3: Cid, x: Bytes, y: Bytes)
    requires c1 != c2 && c2 != c3 && c1 != c3
    ensures Valid(EMPTY)
    ensures ShelfOf(ExchangeRun(EMPTY, [Want(p, c1), Want(q, c2), Add(Block(c1, x)), Add(Block(c3, y))], false))
         == Shelf(map[c2 := x, c1 := y], [c3], [(p, c2), (q, c2)])
  {
    var ops := [Want(p, c1), Want(q, c2), Add(Block(c1, x)), Add(Block(c3, y))];
    AsWrittenIsShelf(EMPTY, ops);
    assert ShelfOf(EMPTY) == Shelf(map[], [], []);
    var s2 := Shelf(map[], [c1, c2], [(p, c1), (q, c2)]);
    var s3 := Shelf(map[c2 := x], [c1], [(p, c2), (q, c2)]);
    TwoWantsInLine(p, q, c1, c2);
    assert LineFor(s2.line, c1) == [c2, c1];
    assert Renamed(s2.wants, c1, c2) == s3.wants;
    assert ShelfStep(s2, ops[2]) == s3;
    assert LineFor(s3.line, c3) == [c1, c3];
    ShelfRunTwice(Shelf(map[], [], []), ops);
    ShelfRunTwice(s2, ops[2..]);
  }

  lemma TwoWantsInLine(p: PeerId, q: PeerId, c1: Cid, c2: Cid)
    requires c1 != c2
    ensures ShelfStep(ShelfStep(Shelf(map[], [], []), Want(p, c1)), Want(q, c2))
         == Shelf(map[], [c1, c2], [(p, c1), (q, c2)])
  {
    assert ShelfStep(Shelf(map[], [], []), Want(p, c1)) == Shelf(map[], [c1], [(p, c1)]);
  }

  lemma ShelfRunTwice(s: Shelf, ops: seq<Op>)
    requires |ops| >= 2
    ensures ShelfRun(s, ops) == ShelfRun(ShelfStep(ShelfStep(s, ops[0]), ops[1]), ops[2..])
  {
    assert ops[1..][1..] == ops[2..];
  }

  /** A run outside the condition: two peers want two blocks, the first block arrives, and the store
      then serves its data under the other CID while the first want has changed its meaning. */
  lemma MisfiledBlock(p: PeerId, q: PeerId, c1: Cid, c2: Cid, data: Bytes)
    requires c1 != c2
    ensures Valid(EMPTY)
    ensures var e := ExchangeRun(EMPTY, [Want(p, c1), Want(q, c2), Add(Block(c1, data))], false);
      Stored(e) == map[c2 := data] && e.wants == [(p, c2), (q, c2)]
  {
    var ops := [Want(p, c1), Want(q, c2), Add(Block(c1, data))];
    var e1 := AddWant(EMPTY, p, c1);
    var e2 := AddWant(e1, q, c2);
    AddWantExtends(EMPTY, p, c1);
    AddWantExtends(e1, q, c2);
    assert e2 == Exchange([c1, c2], [], [(p, c1), (q, c2)]);
    AsWrittenStores(e2, Block(c1, data));
    assert ops[1..][1..] == ops[2..] && ops[2..][1..] == [];
    assert ExchangeRun(EMPTY, ops, false) == ExchangeRun(e1, ops[1..], false);
    assert ExchangeRun(e1, ops[1..], false) == ExchangeRun(e2, ops[2..], false);
    assert ExchangeRun(e2, ops[2..], false) == AddBlock(e2, Block(c1, data));
  }
}
