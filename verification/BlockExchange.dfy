/** The block store and want list as the node keeps it: five vectors, updated in place. Each method is
    proved against the operation of the same name in `ExchangeSpec`, where wants are plain pairs. */
module BlockExchanges {
  import opened Types
  import opened Sequences
  import opened StableSort
  import opened ExchangeSpec
  import Spec = ExchangeSpec

  /** What two parallel index vectors stand for. */
  function Resolve(peers: seq<PeerId>, cids: seq<Cid>, ps: seq<nat>, cs: seq<nat>): (r: seq<Want>)
    requires |ps| == |cs|
    requires forall k | 0 <= k < |ps| :: ps[k] < |peers|
    requires forall k | 0 <= k < |cs| :: cs[k] < |cids|
    ensures |r| == |ps|
    ensures forall k | 0 <= k < |ps| :: r[k] == (peers[ps[k]], cids[cs[k]])
  {
    seq(|ps|, k requires 0 <= k < |ps| => (peers[ps[k]], cids[cs[k]]))
  }

  lemma ResolveRemoved(peers: seq<PeerId>, cids: seq<Cid>, ps: seq<nat>, cs: seq<nat>, i: nat)
    requires i < |ps| == |cs|
    requires forall k | 0 <= k < |ps| :: ps[k] < |peers|
    requires forall k | 0 <= k < |cs| :: cs[k] < |cids|
    ensures Resolve(peers, cids, Removed(ps, i), Removed(cs, i)) == Removed(Resolve(peers, cids, ps, cs), i)
  {
  }

  /** The two rewrites of the written loop, applied to indices `i` and `last` of a swapped vector:
      the wants of the CID at `i` come to name the CID that was last. */
  lemma RewriteRenames(peers: seq<PeerId>, cids: seq<Cid>, ps: seq<nat>, cs: seq<nat>, now: seq<nat>, i: nat)
    requires |ps| == |cs| == |now| && i < |cids| && Distinct(cids)
    requires forall k | 0 <= k < |ps| :: ps[k] < |peers|
    requires forall k | 0 <= k < |cs| :: cs[k] < |cids|
    requires forall k | 0 <= k < |cs| :: now[k] == if cs[k] == |cids| - 1 then i else cs[k]
    ensures Resolve(peers, Swapped(cids, |cids| - 1, i), ps, now)
         == Renamed(Resolve(peers, cids, ps, cs), cids[i], cids[|cids| - 1])
  {
    DistinctMeansDistinct(cids);
  }

  /** A true exchange of two slots and of the indices that point at them changes no want. */
  lemma ExchangeKeeps(peers: seq<PeerId>, cids: seq<Cid>, ps: seq<nat>, cs: seq<nat>, now: seq<nat>,
                      i: nat, d: nat)
    requires |ps| == |cs| == |now| && i < |cids| && d < |cids|
    requires forall k | 0 <= k < |ps| :: ps[k] < |peers|
    requires forall k | 0 <= k < |cs| :: cs[k] < |cids|
    requires forall k | 0 <= k < |cs| :: now[k] == if cs[k] == i then d else if cs[k] == d then i else cs[k]
    ensures Resolve(peers, Swapped(cids, d, i), ps, now) == Resolve(peers, cids, ps, cs)
  {
  }

  /** The two index vectors as one list, keyed by peer index. */
  ghost function Pairs(ps: seq<nat>, cs: seq<nat>): seq<(int, nat)>
    requires |ps| == |cs|
  {
    Zip<int, nat>(ps, cs)
  }

  /** The wants behind the (peer index, CID index) pairs of one peer. */
  ghost function Named(peer: PeerId, cids: seq<Cid>, ps: seq<(int, nat)>): seq<Want>
    requires forall p | p in ps :: p.1 < |cids|
  {
    if ps == [] then [] else [(peer, cids[ps[0].1])] + Named(peer, cids, ps[1..])
  }

  lemma {:induction false} ResolveOnePeer(peers: seq<PeerId>, cids: seq<Cid>, ps: seq<nat>, cs: seq<nat>, i: nat)
    requires |ps| == |cs| && Distinct(peers) && i < |peers|
    requires forall k | 0 <= k < |ps| :: ps[k] < |peers|
    requires forall k | 0 <= k < |cs| :: cs[k] < |cids|
    ensures forall p | p in Filter(Pairs(ps, cs), WithKey(i)) :: p.1 < |cids|
    ensures Filter(Resolve(peers, cids, ps, cs), WantsOf(peers[i]))
         == Named(peers[i], cids, Filter(Pairs(ps, cs), WithKey(i)))
  {
    if ps != [] {
      ResolveOnePeer(peers, cids, ps[1..], cs[1..], i);
      assert Pairs(ps, cs)[1..] == Pairs(ps[1..], cs[1..]);
      assert Resolve(peers, cids, ps, cs)[1..] == Resolve(peers, cids, ps[1..], cs[1..]);
      var head: (int, nat) := Pairs(ps, cs)[0];
      var rest: seq<(int, nat)> := Filter(Pairs(ps[1..], cs[1..]), WithKey(i));
      assert ps[0] == i <==> peers[ps[0]] == peers[i];
      assert ([head] + rest)[1..] == rest && [] + rest == rest;
      if ps[0] == i {
        assert Filter(Pairs(ps, cs), WithKey(i)) == [head] + rest;
        assert Named(peers[i], cids, [head] + rest) == [(peers[i], cids[head.1])] + Named(peers[i], cids, rest);
      } else {
        assert Filter(Pairs(ps, cs), WithKey(i)) == rest;
      }
    }
  }

  lemma NoWantsOfStranger(peers: seq<PeerId>, ws: seq<Want>, p: PeerId)
    requires p !in peers && forall w | w in ws :: w.0 in peers
    ensures Filter(ws, WantsOf(p)) == []
  {
  }

  /** Reordering the index pairs stably leaves each peer's wants in their order. */
  lemma StablePerPeer(peers: seq<PeerId>, cids: seq<Cid>,
                      ps: seq<nat>, cs: seq<nat>, qs: seq<nat>, ds: seq<nat>)
    requires |ps| == |cs| == |qs| == |ds| && Distinct(peers)
    requires forall k | 0 <= k < |ps| :: ps[k] < |peers| && cs[k] < |cids|
    requires forall k | 0 <= k < |qs| :: qs[k] < |peers| && ds[k] < |cids|
    requires StablePermutation(Pairs(ps, cs), Pairs(qs, ds))
    ensures SamePerPeer(Resolve(peers, cids, ps, cs), Resolve(peers, cids, qs, ds))
  {
    var ws, vs := Resolve(peers, cids, ps, cs), Resolve(peers, cids, qs, ds);
    forall p: PeerId ensures Filter(ws, WantsOf(p)) == Filter(vs, WantsOf(p)) {
      if p in peers {
        var i := Slot(peers, p);
        ResolveOnePeer(peers, cids, ps, cs, i);
        ResolveOnePeer(peers, cids, qs, ds, i);
      } else {
        NoWantsOfStranger(peers, ws, p);
        NoWantsOfStranger(peers, vs, p);
      }
    }
  }

  /** `iter_wanted_blocks`: the entries whose CID index lies below `datums.len()`, with their blocks. */
  function WantedBlocks(peers: seq<PeerId>, cids: seq<Cid>, datums: seq<Bytes>,
                        ps: seq<nat>, cs: seq<nat>): (r: seq<(PeerId, Block)>)
    requires |ps| == |cs| && |datums| <= |cids|
    requires forall k | 0 <= k < |ps| :: ps[k] < |peers|
  {
    if ps == [] then []
    else
      (if cs[0] >= |datums| then []
       else [(peers[ps[0]], Block(cids[cs[0]], datums[cs[0]]))])
      + WantedBlocks(peers, cids, datums, ps[1..], cs[1..])
  }

  /** `iter_who_want_block`: the peers of the entries that name the CID. */
  function Wanters(peers: seq<PeerId>, cids: seq<Cid>, ps: seq<nat>, cs: seq<nat>, cid: Cid): (r: seq<PeerId>)
    requires |ps| == |cs|
    requires forall k | 0 <= k < |ps| :: ps[k] < |peers|
    requires forall k | 0 <= k < |cs| :: cs[k] < |cids|
    ensures |r| <= |ps|
  {
    if ps == [] then []
    else (if cids[cs[0]] == cid then [peers[ps[0]]] else []) + Wanters(peers, cids, ps[1..], cs[1..], cid)
  }

  lemma {:induction false} WantedBlocksServe(e: Exchange, peers: seq<PeerId>, ps: seq<nat>, cs: seq<nat>)
    requires Spec.Valid(e)
    requires |ps| == |cs|
    requires forall k | 0 <= k < |ps| :: ps[k] < |peers|
    requires forall k | 0 <= k < |cs| :: cs[k] < |e.cids|
    ensures var r := WantedBlocks(peers, e.cids, e.datums, ps, cs);
      var served := Filter(Resolve(peers, e.cids, ps, cs), iset w: Want | HasData(e, w.1));
      |r| == |served| && forall k | 0 <= k < |r| ::
        served[k].1 in Stored(e) && r[k] == (served[k].0, Block(served[k].1, Stored(e)[served[k].1]))
  {
    if ps != [] {
      WantedBlocksServe(e, peers, ps[1..], cs[1..]);
      assert Resolve(peers, e.cids, ps, cs)[1..] == Resolve(peers, e.cids, ps[1..], cs[1..]);
    }
  }

  lemma {:induction false} WantersAsk(peers: seq<PeerId>, cids: seq<Cid>, ps: seq<nat>, cs: seq<nat>, cid: Cid)
    requires |ps| == |cs|
    requires forall k | 0 <= k < |ps| :: ps[k] < |peers|
    requires forall k | 0 <= k < |cs| :: cs[k] < |cids|
    ensures var r := Wanters(peers, cids, ps, cs, cid);
      var asks := Filter(Resolve(peers, cids, ps, cs), WantersOf(cid));
      |r| == |asks| && forall k | 0 <= k < |r| :: asks[k] == (r[k], cid)
  {
    if ps != [] {
      WantersAsk(peers, cids, ps[1..], cs[1..], cid);
      assert Resolve(peers, cids, ps, cs)[1..] == Resolve(peers, cids, ps[1..], cs[1..]);
    }
  }

  class BlockExchange {
    var peers: seq<PeerId>
    var peerIndices: seq<nat>
    var cidIndices: seq<nat>
    var cids: seq<Cid>
    var datums: seq<Bytes>

    ghost predicate Valid()
      reads this
    {
      && Distinct(peers) && Distinct(cids)
      && |datums| <= |cids|
      && |peerIndices| == |cidIndices|
      && (forall k | 0 <= k < |peerIndices| :: peerIndices[k] < |peers|)
      && (forall k | 0 <= k < |cidIndices| :: cidIndices[k] < |cids|)
    }

    /** The want list, indices resolved. */
    ghost function Wants(): (ws: seq<Want>)
      requires Valid()
      reads this
    {
      Resolve(peers, cids, peerIndices, cidIndices)
    }

    ghost function View(): (e: Exchange)
      requires Valid()
      reads this
      ensures Spec.Valid(e)
    {
      Exchange(cids, datums, Wants())
    }

    constructor ()
      ensures Valid() && View() == EMPTY && peers == []
    {
      peers, peerIndices, cidIndices, cids, datums := [], [], [], [], [];
    }

    /** What can be sent now: the servable wants in order, each with the block stored for its CID. */
    function IterWantedBlocks(): (r: seq<(PeerId, Block)>)
      requires Valid()
      reads this
      ensures |r| == |Servable(View())|
      ensures forall k | 0 <= k < |r| :: var w := Servable(View())[k];
        w.1 in Stored(View()) && r[k] == (w.0, Block(w.1, Stored(View())[w.1]))
    {
      WantedBlocksServe(View(), peers, peerIndices, cidIndices);
      WantedBlocks(peers, cids, datums, peerIndices, cidIndices)
    }

    function IterWhoWantBlock(cid: Cid): (r: seq<PeerId>)
      requires Valid()
      reads this
      ensures |r| == |Filter(Wants(), WantersOf(cid))|
      ensures forall k | 0 <= k < |r| :: Filter(Wants(), WantersOf(cid))[k] == (r[k], cid)
    {
      WantersAsk(peers, cids, peerIndices, cidIndices, cid);
      Wanters(peers, cids, peerIndices, cidIndices, cid)
    }

    /** Groups the want list by peer index without reordering any peer's wants. */
    method InsertionSortWants()
      requires Valid()
      modifies this`peerIndices, this`cidIndices
      ensures Valid() && View() == old(View()).(wants := Wants())
      ensures forall i, j | 0 <= i < j < |peerIndices| :: peerIndices[i] <= peerIndices[j]
      ensures SamePerPeer(old(Wants()), Wants())
    {
      ghost var was := Pairs(peerIndices, cidIndices);
      var ps, cs := InsertionSort(peerIndices, cidIndices);
      forall k | 0 <= k < |ps| ensures 0 <= ps[k] < |peers| && cs[k] < |cids| {
        assert Zip(ps, cs)[k] in multiset(was);
        assert Zip(ps, cs)[k] in was;
      }
      StablePerPeer(peers, cids, peerIndices, cidIndices, ps, cs);
      peerIndices, cidIndices := ps, cs;
      forall i, j | 0 <= i < j < |ps| ensures ps[i] <= ps[j] {
        assert Zip(ps, cs)[i].0 <= Zip(ps, cs)[j].0;
      }
    }

    method AddWant(peer: PeerId, cid: Cid)
      requires Valid()
      modifies this
      ensures Valid() && View() == Spec.AddWant(old(View()), peer, cid)
      ensures peers == if peer in old(peers) then old(peers) else old(peers) + [peer]
    {
      var peerIndex, cidIndex := Position(peers, peer), Position(cids, cid);
      if peerIndex.None? {
        AppendedDistinct(peers, peer);
        peerIndex := Some(|peers|);
        peers := peers + [peer];
      }
      if cidIndex.None? {
        AppendedDistinct(cids, cid);
        cidIndex := Some(|cids|);
        cids := cids + [cid];
      }
      peerIndices := peerIndices + [peerIndex.value];
      cidIndices := cidIndices + [cidIndex.value];
      assert Wants() == old(Wants()) + [(peer, cid)];
    }

    /** Drops entry `i` of both index vectors. */
    method RemoveEntry(i: nat)
      requires Valid() && i < |peerIndices|
      modifies this`peerIndices, this`cidIndices
      ensures Valid() && View() == old(View()).(wants := Removed(old(Wants()), i))
    {
      ResolveRemoved(peers, cids, peerIndices, cidIndices, i);
      peerIndices, cidIndices := Removed(peerIndices, i), Removed(cidIndices, i);
    }

    /** Removes every entry for the CID, walking backwards so the others keep their order. */
    method RemoveWants(cid: Cid)
      requires Valid()
      modifies this`peerIndices, this`cidIndices
      ensures Valid() && View() == Spec.RemoveWants(old(View()), cid)
    {
      ghost var was, keep := Wants(), NotFor(cid);
      if |cidIndices| == 0 { return; }
      var found := Position(cids, cid);
      if found.None? {
        FilterAll(was, keep);
        return;
      }
      WalkEnds(was, was, keep);
      var i := |cidIndices| - 1;
      while true
        invariant Valid() && 0 <= i
        invariant WalkedTo(Wants(), was, i + 1, keep)
        decreases i
      {
        WalkBack(Wants(), was, i, keep);
        assert was[i].1 == cid <==> cidIndices[i] == found.value;
        if cidIndices[i] == found.value {
          RemoveEntry(i);
        }
        if i == 0 { break; }
        i := i - 1;
      }
      WalkEnds(Wants(), was, keep);
    }

    /** Removes every entry of this peer for this CID, duplicates included. */
    method RemoveWant(peer: PeerId, cid: Cid)
      requires Valid()
      modifies this`peerIndices, this`cidIndices
      ensures Valid() && View() == Spec.RemoveWant(old(View()), peer, cid)
    {
      ghost var was, keep := Wants(), OtherThan((peer, cid));
      if |peerIndices| == 0 { return; }
      var found := Position(peers, peer);
      if found.None? {
        FilterAll(was, keep);
        return;
      }
      WalkEnds(was, was, keep);
      var i := |peerIndices| - 1;
      while true
        invariant Valid() && 0 <= i
        invariant WalkedTo(Wants(), was, i + 1, keep)
        decreases i
      {
        WalkBack(Wants(), was, i, keep);
        assert was[i].0 == peer <==> peerIndices[i] == found.value;
        if found.value == peerIndices[i] && cid == cids[cidIndices[i]] {
          RemoveEntry(i);
        }
        if i == 0 { break; }
        i := i - 1;
      }
      WalkEnds(Wants(), was, keep);
    }

    /** Looks the CID up among the slots that have data. */
    method GetBlock(cid: Cid) returns (r: Option<Block>)
      requires Valid()
      ensures r.Some? <==> cid in Stored(View())
      ensures r.Some? ==> r.value == Block(cid, Stored(View())[cid])
    {
      var k := 0;
      while k < |cids| && k < |datums|
        invariant k <= |datums|
        invariant forall j | 0 <= j < k :: cids[j] != cid
      {
        if cid == cids[k] {
          return Some(Block(cids[k], datums[k]));
        }
        k := k + 1;
      }
      return None;
    }

    /** The written rewrite of want indices after slots `i` and `last` were swapped. Its two tests are
        not exclusive, so an index `i` goes to `last` and straight back. */
    method RewriteSlots(i: nat, last: nat)
      modifies this`cidIndices
      ensures |cidIndices| == |old(cidIndices)|
      ensures forall k | 0 <= k < |cidIndices| ::
        cidIndices[k] == if old(cidIndices[k]) == last then i else old(cidIndices[k])
    {
      var k := 0;
      while k < |cidIndices|
        invariant k <= |cidIndices| == |old(cidIndices)|
        invariant forall j | k <= j < |cidIndices| :: cidIndices[j] == old(cidIndices[j])
        invariant forall j | 0 <= j < k ::
          cidIndices[j] == if old(cidIndices[j]) == last then i else old(cidIndices[j])
      {
        if cidIndices[k] == i { cidIndices := cidIndices[k := last]; }
        if cidIndices[k] == last { cidIndices := cidIndices[k := i]; }
        k := k + 1;
      }
    }

    /** As written: the arriving CID goes to the last slot, and both of the swapped slots' indices
        are rewritten to the old slot of the arriving CID. */
    method AddBlock(block: Block) returns (added: bool)
      requires Valid()
      modifies this`cids, this`cidIndices, this`datums
      ensures Valid() && View() == Spec.AddBlock(old(View()), block)
      ensures added <==> !HasData(old(View()), block.cid)
    {
      var index: Option<nat> := None;
      var n := 0;
      while n < |cids|
        invariant n <= |cids|
        invariant index.None? ==> forall j | 0 <= j < n :: cids[j] != block.cid
        invariant index.Some? ==> |datums| <= index.value < |cids| && cids[index.value] == block.cid
      {
        if cids[n] == block.cid {
          if n < |datums| { return false; }
          index := Some(n);
        }
        n := n + 1;
      }
      if index.Some? {
        var i, last := index.value, |cids| - 1;
        SwappedDistinct(cids, last, i);
        cids := Swapped(cids, last, i);
        RewriteSlots(i, last);
        RewriteRenames(peers, old(cids), peerIndices, old(cidIndices), cidIndices, i);
      } else {
        AppendedDistinct(cids, block.cid);
        cids := cids + [block.cid];
      }
      datums := datums + [block.data];
      return true;
    }

    /** The rewrite that matches a swap of slots `i` and `d`. */
    method ExchangeSlots(i: nat, d: nat)
      modifies this`cidIndices
      ensures |cidIndices| == |old(cidIndices)|
      ensures forall k | 0 <= k < |cidIndices| ::
        (var was := old(cidIndices[k]); cidIndices[k] == if was == i then d else if was == d then i else was)
    {
      var k := 0;
      while k < |cidIndices|
        invariant k <= |cidIndices| == |old(cidIndices)|
        invariant forall j | k <= j < |cidIndices| :: cidIndices[j] == old(cidIndices[j])
        invariant forall j | 0 <= j < k ::
            (var was := old(cidIndices[j]); cidIndices[j] == if was == i then d else if was == d then i else was)
      {
        if cidIndices[k] == i {
          cidIndices := cidIndices[k := d];
        } else if cidIndices[k] == d {
          cidIndices := cidIndices[k := i];
        }
        k := k + 1;
      }
    }

    /** As the layout comment has it: CIDs with data first. The arriving CID and the CID in the first
        slot without data change places, and so do the indices that point at them. */
    method AddBlockDocumented(block: Block) returns (added: bool)
      requires Valid()
      modifies this`cids, this`cidIndices, this`datums
      ensures Valid() && View() == Spec.AddBlockDocumented(old(View()), block)
      ensures added <==> !HasData(old(View()), block.cid)
    {
      var found := Position(cids, block.cid);
      if found.Some? && found.value < |datums| { return false; }
      if found.None? {
        AppendedDistinct(cids, block.cid);
        found := Some(|cids|);
        cids := cids + [block.cid];
      }
      var i, d := found.value, |datums|;
      assert i == Slot(cids, block.cid);
      ghost var known := cids;
      SwappedDistinct(known, d, i);
      cids := Swapped(cids, d, i);
      ExchangeSlots(i, d);
      ExchangeKeeps(peers, known, peerIndices, old(cidIndices), cidIndices, i, d);
      datums := datums + [block.data];
      assert Resolve(peers, known, peerIndices, old(cidIndices)) == old(Wants());
      return true;
    }
  }
}
