/** The player as it is kept: two deques sorted side by side, a fetch set and three counters, updated in
    place by one method per event. Each method does exactly the step of the same name in `PlayerSpec`. */
module VideoStreams {
  import opened Types
  import opened Sequences
  import opened StableSort
  import opened PlayerSpec
  import opened PlayerRuns
  import Spec = PlayerSpec

  /** Sorting both deques after a push puts the new pair where `Inserted` says. */
  lemma SortInserts(was: seq<Item>, it: Item, segments: seq<int>, timestamps: seq<u64>,
                    ks: seq<int>, vs: seq<u64>)
    requires |segments| == |timestamps| == |ks| == |vs|
    requires Zip(segments, timestamps) == was + [it] && SortedByKey(was)
    requires SortedByKey(Zip(ks, vs)) && StablePermutation(Zip(segments, timestamps), Zip(ks, vs))
    requires multiset(Zip(segments, timestamps)) == multiset(Zip(ks, vs))
    requires forall k | 0 <= k < |segments| :: 0 <= segments[k] < U64_RANGE
    ensures Zip(ks, vs) == Inserted(was, it)
    ensures forall k | 0 <= k < |ks| :: 0 <= ks[k] < U64_RANGE
  {
    InsertedIsStable(was, it);
    StableSortUnique(Zip(ks, vs), Inserted(was, it));
    forall k | 0 <= k < |ks| ensures 0 <= ks[k] < U64_RANGE {
      assert Zip(ks, vs)[k] in multiset(Zip(segments, timestamps));
      assert Zip(ks, vs)[k] in Zip(segments, timestamps);
    }
  }

  /** After `k + 1` pops: the last one popped and what is left. */
  ghost predicate PoppedTo(was: seq<Item>, k: nat, last: Item, rest: seq<Item>) {
    k < |was| && last == was[k] && rest == was[k + 1..]
  }

  lemma PopsOn(was: seq<Item>, k: nat, last: Item, rest: seq<Item>)
    requires PoppedTo(was, k, last, rest) && rest != []
    ensures PoppedTo(was, k + 1, rest[0], rest[1..])
  {
  }

  lemma NewestLeft(was: seq<Item>, k: nat, last: Item, rest: seq<Item>)
    requires PoppedTo(was, k, last, rest)
    ensures rest != [] ==> Newest(rest) == Newest(was)
  {
  }

  // What has happened so far: the part of a `Player` that the program does not keep.
  datatype History = History(received: seq<Message>, inFlight: multiset<Item>, delivered: seq<Item>,
                             left: seq<Item>, played: seq<Item>, skipped: seq<Item>)

  class VideoStream {
    var gossips: seq<Message>
    var fetching: set<int>
    var segments: seq<u64>
    var timestamps: seq<u64>
    var currentSegment: int
    var stopped: nat
    var buffering: nat

    ghost var past: History

    ghost predicate Valid()
      reads this
    {
      |segments| == |timestamps|
    }

    /** The two deques as one list of pairs. */
    ghost function Buffer(): seq<Item>
      requires Valid()
      reads this
    {
      Zip<int, u64>(segments, timestamps)
    }

    ghost function View(): Player
      requires Valid()
      reads this
    {
      Spec.Player(gossips, fetching, Buffer(), currentSegment, stopped, buffering,
                  past.received, past.inFlight, past.delivered, past.left, past.played, past.skipped)
    }

    constructor ()
      ensures Valid() && View() == FRESH
    {
      gossips, fetching, segments, timestamps := [], {}, [], [];
      currentSegment, stopped, buffering := 0, 0, 0;
      past := History([], multiset{}, [], [], [], []);
    }

    method AddGossip(message: Message)
      requires Valid()
      modifies this
      ensures Valid() && View() == Spec.AddGossip(old(View()), message)
    {
      gossips := gossips + [message];
      past := past.(received := past.received + [message]);
    }

    /** The sort after a push: only the last pair of `was + [it]` can be out of place. */
    method SortSegments(ghost was: seq<Item>, ghost it: Item)
      requires Valid() && Buffer() == was + [it] && SortedByKey(was)
      modifies this`segments, this`timestamps
      ensures Valid() && Buffer() == Inserted(was, it)
    {
      var ks, vs := InsertionSort<u64>(segments, timestamps);
      SortInserts(was, it, segments, timestamps, ks, vs);
      segments, timestamps := ks, vs;
    }

    /** Pushes the segment behind both deques and insertion-sorts them by index. That the deques are
        sorted before is kept by every step, see `PlayerRuns.RunKeeps`. */
    method AddSegment(segmentIndex: u64, timestamp: u64)
      requires Valid() && SortedByKey(Buffer())
      modifies this
      ensures Valid() && View() == Spec.AddSegment(old(View()), (segmentIndex, timestamp))
    {
      ghost var was, it: Item := Buffer(), (segmentIndex, timestamp);
      fetching := fetching - {segmentIndex};
      segments := segments + [segmentIndex];
      timestamps := timestamps + [timestamp];
      SortSegments(was, it);
      past := past.(inFlight := past.inFlight - multiset{it}, delivered := past.delivered + [it]);
    }

    method PopFront() returns (segmentIdx: u64, timestamp: u64)
      requires Valid() && |segments| > 0
      modifies this`segments, this`timestamps
      ensures Valid()
      ensures Buffer() == old(Buffer())[1..] && (segmentIdx, timestamp) == old(Buffer())[0]
    {
      segmentIdx, timestamp := segments[0], timestamps[0];
      segments, timestamps := segments[1..], timestamps[1..];
    }

    /** The inner loop: pops while the segment in hand is more than half a buffer behind the newest. */
    method SkipToMiddle(head: u64, headTime: u64, ghost was: seq<Item>)
      returns (segmentIdx: u64, timestamp: u64, ghost k: nat)
      requires Valid() && PoppedTo(was, 0, (head, headTime), Buffer())
      modifies this`segments, this`timestamps
      ensures Valid() && k == SkipTo(was, WrappingSub(Newest(was), HALF_BUFFER), 0)
      ensures PoppedTo(was, k, (segmentIdx, timestamp), Buffer())
    {
      ghost var bound := WrappingSub(Newest(was), HALF_BUFFER);
      segmentIdx, timestamp, k := head, headTime, 0;
      NewestLeft(was, k, (segmentIdx, timestamp), Buffer());
      while |segments| > 0 && segmentIdx < WrappingSub(segments[|segments| - 1], HALF_BUFFER)
        invariant Valid() && PoppedTo(was, k, (segmentIdx, timestamp), Buffer())
        invariant |segments| > 0 ==> segments[|segments| - 1] == Newest(was)
        invariant SkipTo(was, bound, 0) == SkipTo(was, bound, k)
        decreases |segments|
      {
        PopsOn(was, k, (segmentIdx, timestamp), Buffer());
        segmentIdx, timestamp := PopFront();
        k := k + 1;
        NewestLeft(was, k, (segmentIdx, timestamp), Buffer());
      }
    }

    /** Takes the next segment to play off both deques. When it is too far behind the newest one, pops
        on to the middle of the buffer. `k` counts the segments dropped. */
    method TakeNext() returns (segmentIdx: u64, timestamp: u64, ghost k: nat)
      requires Valid() && |segments| > 0
      modifies this`segments, this`timestamps
      ensures Valid()
      ensures k == PlayIndex(old(Buffer()))
      ensures Buffer() == old(Buffer())[k + 1..] && (segmentIdx, timestamp) == old(Buffer())[k]
    {
      ghost var was := Buffer();
      segmentIdx, timestamp := PopFront();
      k := 0;
      NewestLeft(was, k, (segmentIdx, timestamp), Buffer());
      if |segments| > 0 && segmentIdx < WrappingSub(segments[|segments| - 1], BUFFER_SIZE) {
        segmentIdx, timestamp, k := SkipToMiddle(segmentIdx, timestamp, was);
      }
    }

    method AdvanceStream()
      requires Valid()
      modifies this
      ensures Valid() && View() == Advance(old(View()))
    {
      if buffering > 0 {
        buffering := buffering - 1;
        stopped := stopped + 1;
        return;
      }
      if |segments| == 0 {
        stopped := stopped + 1;
        buffering := 2;
        return;
      }
      ghost var was := Buffer();
      var segmentIdx, timestamp, k := TakeNext();
      stopped := 0;
      currentSegment := segmentIdx;
      fetching := NotBelow(fetching, currentSegment);
      past := past.(left := past.left + was[..k + 1], played := past.played + [was[k]],
                    skipped := past.skipped + was[..k]);
    }

    /** One tick: ask for the oldest announced segment, then advance. */
    method Play()
      requires Valid()
      modifies this
      ensures Valid() && View() == Step(old(View()), Tick)
    {
      if |gossips| > 0 {
        var message := gossips[0];
        gossips := gossips[1..];
        fetching := fetching + {message.count};
        past := past.(inFlight := past.inFlight + multiset{ItemOf(message)});
      }
      assert View() == Fetch(old(View()));
      AdvanceStream();
    }

    /** One branch of the select loop. */
    method Handle(event: Event)
      requires Valid() && BufferOk(Buffer()) && Enabled(View(), event)
      requires event.Deliver? ==> 0 <= event.item.0 < U64_RANGE
      modifies this
      ensures Valid() && View() == Step(old(View()), event)
    {
      match event {
        case Gossip(m) => AddGossip(m);
        case Deliver(it) => AddSegment(it.0, it.1);
        case Tick => Play();
      }
    }

    /** The select loop, on whatever order of messages, arrivals and ticks the node sees. */
    method RunLoop(events: seq<Event>)
      requires Valid() && Inv(View()) && AllEnabled(View(), events)
      modifies this
      ensures Valid() && View() == Spec.Run(old(View()), events)
    {
      var k := 0;
      assert events[0..] == events;
      while k < |events|
        invariant k <= |events| && Valid() && Inv(View()) && AllEnabled(View(), events[k..])
        invariant Spec.Run(View(), events[k..]) == Spec.Run(old(View()), events)
      {
        assert events[k..][1..] == events[k + 1..];
        StepKeeps(View(), events[k]);
        Handle(events[k]);
        k := k + 1;
      }
    }
  }
}
