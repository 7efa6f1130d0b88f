/** What a block exchange holds, seen without its index vectors: the CIDs in slot order, the data of
    the leading slots, and the want list as (peer, CID) pairs in order. The class `BlockExchange`
    refines these operations; every claim about runs is proved here, on values. */
module ExchangeSpec {
  import opened Types
  import opened Sequences

  datatype Exchange = Exchange(cids: seq<Cid>, datums: seq<Bytes>, wants: seq<Want>)

  const EMPTY := Exchange([], [], [])

  ghost predicate Valid(e: Exchange) {
    && Distinct(e.cids)
    && |e.datums| <= |e.cids|
    && forall k | 0 <= k < |e.wants| :: e.wants[k].1 in e.cids
  }

  /** The CID sits in one of the leading slots, those that have data. */
  ghost predicate HasData(e: Exchange, c: Cid) {
    0 <= Slot(e.cids, c) < |e.datums|
  }

  /** The blocks the exchange can serve. */
  ghost function Stored(e: Exchange): (m: map<Cid, Bytes>)
    requires Valid(e)
    ensures forall c :: c in m <==> HasData(e, c)
  {
    map c | c in e.cids && HasData(e, c) :: e.datums[Slot(e.cids, c)]
  }

  /** The want list restricted to what can be served now. */
  ghost function Servable(e: Exchange): seq<Want>
    requires Valid(e)
  {
    Filter(e.wants, iset w: Want | HasData(e, w.1))
  }

  ghost function OtherThan(w: Want): iset<Want> { iset x: Want | x.0 != w.0 || x.1 != w.1 }
  ghost function NotFor(c: Cid): iset<Want> { iset x: Want | x.1 != c }
  ghost function WantsOf(p: PeerId): iset<Want> { iset x: Want | x.0 == p }
  ghost function WantersOf(c: Cid): iset<Want> { iset x: Want | x.1 == c }

  // ---------- the operations, as written ----------

  function AddWant(e: Exchange, p: PeerId, c: Cid): Exchange {
    Exchange(if c in e.cids then e.cids else e.cids + [c], e.datums, e.wants + [(p, c)])
  }

  ghost function RemoveWant(e: Exchange, p: PeerId, c: Cid): Exchange {
    e.(wants := Filter(e.wants, OtherThan((p, c))))
  }

  ghost function RemoveWants(e: Exchange, c: Cid): Exchange {
    e.(wants := Filter(e.wants, NotFor(c)))
  }

  /** Every want for `from` turned into a want for `to`. */
  function Renamed(ws: seq<Want>, from: Cid, to: Cid): (r: seq<Want>)
    ensures |r| == |ws|
  {
    seq(|ws|, k requires 0 <= k < |ws| => if ws[k].1 == from then (ws[k].0, to) else ws[k])
  }

  /** `add_block` as written: a CID known without data is swapped to the last slot, its wants end up
      naming the CID that was last, and the data goes to the first slot without data. */
  ghost function AddBlock(e: Exchange, b: Block): Exchange {
    if HasData(e, b.cid) then e
    else if b.cid in e.cids then
      var last := |e.cids| - 1;
      Exchange(Swapped(e.cids, last, Slot(e.cids, b.cid)), e.datums + [b.data],
               Renamed(e.wants, b.cid, e.cids[last]))
    else
      Exchange(e.cids + [b.cid], e.datums + [b.data], e.wants)
  }

  /** `add_block` as the layout comment promises it: the arriving CID takes the first slot without
      data, the CID it displaces takes its old slot (or the end), and no want changes its meaning. */
  ghost function AddBlockDocumented(e: Exchange, b: Block): Exchange
    requires |e.datums| <= |e.cids|
  {
    if HasData(e, b.cid) then e
    else
      var known := if b.cid in e.cids then e.cids else e.cids + [b.cid];
      Exchange(Swapped(known, |e.datums|, Slot(known, b.cid)), e.datums + [b.data], e.wants)
  }

  // ---------- what growing an exchange never disturbs ----------

  /** Slots with data are kept, wants that can be served stay where they are, and a want that cannot
      be served yet does not come to name a block that was already stored. */
  ghost predicate Extends(e: Exchange, f: Exchange)
    requires Valid(e) && Valid(f)
  {
    && |e.datums| <= |f.datums|
    && e.datums == f.datums[..|e.datums|]
    && e.cids[..|e.datums|] == f.cids[..|e.datums|]
    && |e.wants| <= |f.wants|
    && forall k | 0 <= k < |e.wants| ::
        if HasData(e, e.wants[k].1) then f.wants[k] == e.wants[k] else !HasData(e, f.wants[k].1)
  }

  lemma AddBlockExtends(e: Exchange, b: Block)
    requires Valid(e)
    ensures Valid(AddBlock(e, b)) && Extends(e, AddBlock(e, b))
  {
    if !HasData(e, b.cid) {
      if b.cid in e.cids {
        SwapPathExtends(e, b);
      } else {
        var f := AddBlock(e, b);
        AppendedDistinct(e.cids, b.cid);
        assert f.cids[..|e.datums|] == e.cids[..|e.datums|];
      }
    }
  }

  /** The branch of `add_block` that swaps slots and rewrites want indices. */
  lemma SwapPathExtends(e: Exchange, b: Block)
    requires Valid(e) && !HasData(e, b.cid) && b.cid in e.cids
    ensures Valid(AddBlock(e, b)) && Extends(e, AddBlock(e, b))
  {
    var f := AddBlock(e, b);
    SwappedDistinct(e.cids, |e.cids| - 1, Slot(e.cids, b.cid));
    assert f.cids[..|e.datums|] == e.cids[..|e.datums|];
  }

  lemma AddWantExtends(e: Exchange, p: PeerId, c: Cid)
    requires Valid(e)
    ensures Valid(AddWant(e, p, c)) && Extends(e, AddWant(e, p, c))
  {
    var f := AddWant(e, p, c);
    if c !in e.cids { AppendedDistinct(e.cids, c); }
    assert f.cids[..|e.datums|] == e.cids[..|e.datums|];
  }

  lemma RemoveWantKeeps(e: Exchange, p: PeerId, c: Cid)
    requires Valid(e)
    ensures Valid(RemoveWant(e, p, c)) && Stored(RemoveWant(e, p, c)) == Stored(e)
    ensures forall w :: w in RemoveWant(e, p, c).wants <==> w in e.wants && w != (p, c)
  {
    var f := RemoveWant(e, p, c);
    forall w ensures w in f.wants <==> w in e.wants && w != (p, c) {
      FilterMember(e.wants, OtherThan((p, c)), w);
    }
    forall k | 0 <= k < |f.wants| ensures f.wants[k].1 in f.cids {
      assert f.wants[k] in e.wants;
    }
  }

  lemma ExtendsStored(e: Exchange, f: Exchange)
    requires Valid(e) && Valid(f) && Extends(e, f)
    ensures forall c | c in Stored(e) :: c in Stored(f) && Stored(f)[c] == Stored(e)[c]
  {
    forall c | c in Stored(e) ensures c in Stored(f) && Stored(f)[c] == Stored(e)[c] {
      var k := Slot(e.cids, c);
      assert f.cids[..|e.datums|][k] == e.cids[..|e.datums|][k];
      assert f.cids[k] == c;
    }
  }

  // ---------- where every CID stands, slot by slot ----------

  /** An add as written forgets no CID. A CID that waited for its data ends in the last slot and the CID
      that was last takes its place; a new CID is appended; no other CID moves, in any case. */
  lemma SlotsAfterAdd(e: Exchange, b: Block)
    requires Valid(e)
    ensures HasData(e, b.cid) ==> AddBlock(e, b) == e
    ensures !HasData(e, b.cid) ==> AddBlock(e, b).datums == e.datums + [b.data]
    ensures var f, last := AddBlock(e, b), |e.cids| - 1;
      && (b.cid !in e.cids ==> f.cids == e.cids + [b.cid])
      && (b.cid in e.cids && !HasData(e, b.cid) ==>
            && |f.cids| == |e.cids| && f.cids[last] == b.cid
            && (forall k | 0 <= k < last && e.cids[k] == b.cid :: f.cids[k] == e.cids[last])
            && forall k | 0 <= k < last && e.cids[k] != b.cid :: f.cids[k] == e.cids[k])
  {
  }

  /** A want moves no CID and touches no data; a CID not heard of before stands last. */
  lemma SlotsAfterWant(e: Exchange, p: PeerId, c: Cid)
    requires Valid(e)
    ensures var f := AddWant(e, p, c);
      && e.cids <= f.cids && f.datums == e.datums
      && (if c in e.cids then |f.cids| == |e.cids| else |f.cids| == |e.cids| + 1 && f.cids[|e.cids|] == c)
  {
  }

  /** Removing wants moves no CID and touches no data. */
  lemma SlotsAfterRemove(e: Exchange, p: PeerId, c: Cid)
    ensures RemoveWant(e, p, c).cids == e.cids && RemoveWant(e, p, c).datums == e.datums
    ensures RemoveWants(e, c).cids == e.cids && RemoveWants(e, c).datums == e.datums
  {
  }

  // ---------- the want list regrouped ----------

  /** The same want list up to how different peers' entries interleave. */
  ghost predicate SamePerPeer(ws: seq<Want>, vs: seq<Want>) {
    forall p: PeerId :: Filter(ws, WantsOf(p)) == Filter(vs, WantsOf(p))
  }

  /** Regrouping by peer keeps what the iterators yield, and for each peer the order it is served in. */
  lemma RegroupingKeepsIterators(e: Exchange, f: Exchange)
    requires Valid(e) && Valid(f) && e.cids == f.cids && e.datums == f.datums
    requires SamePerPeer(e.wants, f.wants)
    ensures multiset(e.wants) == multiset(f.wants)
    ensures multiset(Servable(e)) == multiset(Servable(f)) && SamePerPeer(Servable(e), Servable(f))
    ensures forall c :: multiset(Filter(e.wants, WantersOf(c))) == multiset(Filter(f.wants, WantersOf(c)))
  {
    SamePerPeerIsPermutation(e.wants, f.wants);
    var served := iset w: Want | HasData(e, w.1);
    assert served == iset w: Want | HasData(f, w.1);
    RestrictedPerPeer(e.wants, f.wants, served);
    SamePerPeerIsPermutation(Servable(e), Servable(f));
    forall c ensures multiset(Filter(e.wants, WantersOf(c))) == multiset(Filter(f.wants, WantersOf(c))) {
      RestrictedPerPeer(e.wants, f.wants, WantersOf(c));
      SamePerPeerIsPermutation(Filter(e.wants, WantersOf(c)), Filter(f.wants, WantersOf(c)));
    }
  }

  lemma SamePerPeerIsPermutation(ws: seq<Want>, vs: seq<Want>)
    requires SamePerPeer(ws, vs)
    ensures multiset(ws) == multiset(vs)
  {
    forall w ensures multiset(ws)[w] == multiset(vs)[w] {
      FilterCount(ws, WantsOf(w.0), w);
      FilterCount(vs, WantsOf(w.0), w);
    }
  }

  lemma RestrictedPerPeer(ws: seq<Want>, vs: seq<Want>, keep: iset<Want>)
    requires SamePerPeer(ws, vs)
    ensures SamePerPeer(Filter(ws, keep), Filter(vs, keep))
  {
    forall p: PeerId ensures Filter(Filter(ws, keep), WantsOf(p)) == Filter(Filter(vs, keep), WantsOf(p)) {
      assert keep * WantsOf(p) == WantsOf(p) * keep;
      FilterFilter(ws, keep, WantsOf(p));
      FilterFilter(ws, WantsOf(p), keep);
      FilterFilter(vs, keep, WantsOf(p));
      FilterFilter(vs, WantsOf(p), keep);
    }
  }
}
