# Live streaming over IPFS: the node, its store, its player

A streamer cuts live video into segments, cuts each segment into blocks, adds the blocks to its block
store and announces their CIDs over gossip. Viewers ask for the blocks with bitswap, pass them on to
each other and play the segments in order. This project models the parts of that test plan
(`plans/streaming_test`) that hold state, and proves what they keep over every run.

- `ExchangeSpec.dfy`, `Ledgers.dfy`, `BlockExchange.dfy`: the block store and want list. The class keeps
  the program's five parallel vectors and updates them in place; `ExchangeSpec` states each operation on
  CIDs, data and (peer, CID) pairs, with no index vectors; `Ledgers` has the simple thing both stand for,
  a map and an ordered list.
- `Scheduler.dfy`, `SchedulerRuns.dfy`, `Fairness.dfy`, `BackgroundService.dfy`: the background task as a
  state machine, driven by any sequence of received blocks, wants, cancels and client commands.
- `Segments.dfy`, `Streamer.dfy`: splitting a segment into blocks, one call of `generate_video`, and the
  whole streamer node with its command queue under any interleaving.
- `PlayerSpec.dfy`, `PlayerRuns.dfy`, `PlayerProgress.dfy`, `VideoStream.dfy`: the viewer's player.
- `StableSort.dfy`, `Sequences.dfy`, `Types.dfy`: the insertion sort that the program writes out twice,
  order-preserving filters, and shared values.

Every class method is proved equal to a step on values; the results about runs are lemmas about those
steps. Ghost fields log what a class tells the network and its clients.

## What the code does and its comments do not say

**`add_block` misfiles blocks.** The comment on `cids` promises that CIDs with data come first, so that
slot `i` of `datums` belongs to slot `i` of `cids`. The code moves a CID that was known without data to
the *last* slot instead, appends a new CID at the end even when CIDs without data are waiting, and its
two index tests send both swapped indices to the same value. `Ledgers.AsWrittenStores` and
`Ledgers.AsWrittenWants` give the exact effect in every case, and `Ledgers.MisfiledBlock` a run of three
calls after which the store returns one block's data for another block's CID and a want has changed its
meaning. `Ledgers.AsWrittenIsShelf` says what the code is on every run, whatever comes in whatever order:
a queue of CIDs without data, the first of which gets the next block's data.
`Ledgers.AgreesExactlyInPlace` gives the exact condition for one call: the CID is stored already, or it is
the only CID without data, or it is new and every CID has data.
`Ledgers.FollowsExactlyWhenGuarded` and `SchedulerRuns.NodeFollowsExactlyWhenGuarded` lift it to whole
runs, and `Ledgers.FollowsExactlyWhenInOrder` says it of the operations alone: at each add, the CID was
added before, or every other CID wanted or added so far has been added.
`BlockExchange.AddBlockDocumented` is the operation the comment describes; it represents the map and the
list on every run (`Ledgers.DocumentedRefines`). Safety, accounting, fairness and progress below are
proved of the code as written. On the streamer node the condition always holds
(`Streamer.StreamerAligned`), because every add comes before the publish that makes peers want it.

**The catch-up rule wraps.** The player subtracts 30 and 15 from the newest buffered index on `u64`, and
the release build wraps. While the newest index is below 15, every playing tick with two or more segments
buffered drops all but the newest: `PlayerRuns.FirstSegmentDropped` is a run from a fresh player that skips
segment 1 with segments 1 and 2 buffered. `PlayerRuns.SkipsAsIntendedExactlyWhen` gives the exact condition
under which the rule works as meant, and `PlayerRuns.CatchUp` the segment played in each range.

**The segment split is right only for 8 to 2^64 - 1 bits.** With fewer than 8 bits the block counter starts
at 0, its first decrement wraps, and the loop runs 2^64 times. From 2^64 bits on, the product of bit rate
and length wraps, and what is split is the wrapped number. `Segments.GenerateBlocks` states this as an if and only if.

**A request for a block the node already has is not answered from its store**
(`SchedulerRuns.StoredBlockNotReturned`). `SchedulerRuns.RequestFate` gives what becomes of any request,
over every run: it is answered if and only if a block with its CID is received before that CID is asked for
again, superseded if and only if it is asked for again first, and waiting otherwise.

## Model

| member | source | states |
|---|---|---|
| BlockExchanges.BlockExchange.AddWant | plans/streaming_test/src/ipfs/block_exchange.rs:80-96 | appends the pair to the want list, adds an unknown CID behind the known ones and an unknown peer behind the known ones, and changes nothing else |
| BlockExchanges.BlockExchange.RemoveWants | plans/streaming_test/src/ipfs/block_exchange.rs:98-124 | the backward loop is the order-preserving filter that drops exactly the wants for the CID |
| BlockExchanges.BlockExchange.RemoveWant | plans/streaming_test/src/ipfs/block_exchange.rs:126-153 | the backward loop drops every copy of the pair, keeps the order of the rest, and does nothing for an unknown peer or an empty list |
| BlockExchanges.BlockExchange.GetBlock | plans/streaming_test/src/ipfs/block_exchange.rs:155-165 | finds a block exactly when the CID has a slot with data, and returns that data |
| BlockExchanges.BlockExchange.AddBlock | plans/streaming_test/src/ipfs/block_exchange.rs:167-207 | as written: the swap, the two index tests and the push amount to moving the CID last, renaming its wants, and giving the data to the first slot without data; false exactly when already stored |
| BlockExchanges.BlockExchange.RewriteSlots | plans/streaming_test/src/ipfs/block_exchange.rs:191-199 | both swapped indices end at the old slot of the arriving CID |
| BlockExchanges.BlockExchange.AddBlockDocumented | plans/streaming_test/src/ipfs/block_exchange.rs:20-22 | the operation the layout comment calls for: data lands with its own CID and no want changes |
| BlockExchanges.BlockExchange.IterWantedBlocks | plans/streaming_test/src/ipfs/block_exchange.rs:43-64 | yields exactly the wants whose CID has data, in list order, each with the stored block |
| BlockExchanges.BlockExchange.IterWhoWantBlock | plans/streaming_test/src/ipfs/block_exchange.rs:66-78 | yields exactly the peers of the wants for the CID, in list order |
| BlockExchanges.BlockExchange.InsertionSortWants | plans/streaming_test/src/ipfs/block_exchange.rs:26-41 | peer indices sorted, no other vector touched, each peer's wants in their old order |
| StableSort.InsertionSort | plans/streaming_test/src/ipfs/block_exchange.rs:26-41 | the nested loops end with the keys sorted, as a stable permutation of the pairs |
| StableSort.StableSortUnique | plans/streaming_test/src/ipfs/block_exchange.rs:26-41 | sortedness and stability determine the result |
| ExchangeSpec.RegroupingKeepsIterators | plans/streaming_test/src/ipfs/block_exchange.rs:26-78 | sorting the wants changes neither what the iterators yield nor any peer's order |
| ExchangeSpec.AddBlockExtends | plans/streaming_test/src/ipfs/block_exchange.rs:167-207 | as written it keeps indices in range and CIDs distinct, never touches a slot with data or a want that can be served, and never renames a want to a stored block |
| ExchangeSpec.SlotsAfterAdd | plans/streaming_test/src/ipfs/block_exchange.rs:167-207 | where every CID stands after an add, in every case: a CID that waited ends in the last slot and the one that was last takes its place, a new CID is appended, no other moves |
| ExchangeSpec.SlotsAfterWant | plans/streaming_test/src/ipfs/block_exchange.rs:80-96 | a want moves no CID and touches no data, and a CID not heard of before stands last |
| Ledgers.AsWrittenStores | plans/streaming_test/src/ipfs/block_exchange.rs:187-204 | which CID the data is filed under, in every case |
| Ledgers.AsWrittenWants | plans/streaming_test/src/ipfs/block_exchange.rs:187-199 | when the wants survive: if and only if the arriving CID is new, sits in the last slot, or nobody wants it; otherwise each want for it is lost to the CID of the last slot |
| Ledgers.AgreesExactlyInPlace | plans/streaming_test/src/ipfs/block_exchange.rs:167-207 | the call stores its block and leaves the wants alone if and only if the CID is in place |
| Ledgers.MisfiledBlock | plans/streaming_test/src/ipfs/block_exchange.rs:187-204 | two wants and one block after which the store is wrong |
| Ledgers.NothingForgotten | plans/streaming_test/src/ipfs/block_exchange.rs:80-207 | over every run, in place or not, the exchange knows exactly the CIDs it knew and those named by a want or an add |
| Ledgers.AsWrittenIsShelf | plans/streaming_test/src/ipfs/block_exchange.rs:80-207 | over every run, in place or not, the code as written is a map, a line of CIDs without data, and a want list: an arriving CID trades places with the last in line or joins it, and the data goes to the first in line |
| Ledgers.TwoBlocksMisfiled | plans/streaming_test/src/ipfs/block_exchange.rs:187-204 | two wants and two blocks after which each block is filed under another CID and the second cannot be read |
| Ledgers.DocumentedStores | plans/streaming_test/src/ipfs/block_exchange.rs:20-22 | the documented operation always extends the map by its block and nothing else |
| Ledgers.DocumentedRefines | plans/streaming_test/src/ipfs/block_exchange.rs:20-207 | over every sequence of operations the documented store is a map and an ordered list |
| Ledgers.FollowsExactlyWhenGuarded | plans/streaming_test/src/ipfs/block_exchange.rs:80-207 | over every sequence of operations the code as written is that map and list if and only if each add is in place |
| Ledgers.FollowsExactlyWhenInOrder | plans/streaming_test/src/ipfs/block_exchange.rs:80-207 | from an empty store, the same as a condition on the operations alone: each add repeats an earlier one, or every other CID named so far was already added |
| BackgroundServices.BackgroundService.SendFirstFree | plans/streaming_test/src/ipfs/background.rs:364-389 | the loop shared by the three arms sends the first servable want that is not being sent, and nothing else |
| BackgroundServices.BackgroundService.ReceivedBlock | plans/streaming_test/src/ipfs/background.rs:342-390 | stores, answers the waiting request, and below the cap starts one send |
| BackgroundServices.BackgroundService.ReceivedWant | plans/streaming_test/src/ipfs/background.rs:391-433 | appends the want and below the cap starts one send |
| BackgroundServices.BackgroundService.ReceivedCancel | plans/streaming_test/src/ipfs/background.rs:434-476 | drops the want; when it was being sent, ends that send and starts another |
| BackgroundServices.BackgroundService.RunLoop | plans/streaming_test/src/ipfs/background.rs:73-86 | any order of events and commands is a run of the state machine |
| SchedulerRuns.RunSafe | plans/streaming_test/src/ipfs/background.rs:338-478 | from every safe state, over every run: each pending send is still wanted and stored, and the cap is never exceeded |
| SchedulerRuns.Reachable | plans/streaming_test/src/ipfs/background.rs:50-86 | every reachable state is safe, its sends, payloads and requests accounted for |
| SchedulerRuns.RunAccounted | plans/streaming_test/src/ipfs/background.rs:338-478 | sends equal pending pairs plus cancels that ended a send; every payload sent is what the store returns; every request is waiting, answered with the CID it named, or superseded |
| SchedulerRuns.NoResendWithoutCancel | plans/streaming_test/src/ipfs/background.rs:369-408 | in any stretch without a cancel of it a pair is sent at most once |
| SchedulerRuns.StoreStable | plans/streaming_test/src/ipfs/block_exchange.rs:155-207 | over every run a block once readable reads the same forever, and slots with data never change |
| SchedulerRuns.NodeFollowsExactlyWhenGuarded | plans/streaming_test/src/ipfs/background.rs:172-174 | over every run of the node its store is a map and a list if and only if every block was in place when it came |
| SchedulerRuns.NodeFollowsExactlyWhenInOrder | plans/streaming_test/src/ipfs/background.rs:342-392 | from the start, the same as a condition on the events alone |
| SchedulerRuns.RequestFate | plans/streaming_test/src/ipfs/background.rs:160-171 | over every run a request is answered with the first block received for its CID, or superseded by the first later request for it, or waiting, each if and only if that event comes first or neither does |
| SchedulerRuns.StoredBlockNotReturned | plans/streaming_test/src/ipfs/background.rs:160-174 | a block added and then asked for leaves the request waiting |
| Fairness.StepSends | plans/streaming_test/src/ipfs/background.rs:342-476 | what one event sends, both ways: the first entry that has data and is not being sent, when the event is an arrival below the cap or a cancel of a pair being sent; in every other case nothing |
| Fairness.SendsPaidFor | plans/streaming_test/src/ipfs/background.rs:355-475 | over every run the sends started are no more than the arrivals and the cancels that ended a send together |
| Fairness.BoundedOvertaking | plans/streaming_test/src/ipfs/background.rs:338-389 | a servable want at position n sees at most n other sends before its own, in any run that does not cancel it |
| Fairness.NoStarvation | plans/streaming_test/src/ipfs/background.rs:441-475 | once more cancels have ended a send than entries stood ahead of it, the want has been sent |
| Fairness.Progress | plans/streaming_test/src/ipfs/background.rs:355-433 | after k arrivals without cancels, pending sends number at least the least of the cap, the start plus k, and the servable pairs |
| Segments.GenerateBlocks | plans/streaming_test/src/utils.rs:57-103 | blocks of 524288 or 262144 bytes: fewer than 2^64 of them that sum to floor(bitrate * length / 8), all full but the last and the last not empty, if and only if bitrate * length is at least 8 and below 2^64; otherwise the same split of the product modulo 2^64, or 2^64 blocks when that has no byte; as few blocks as possible; each block named by its own hash |
| Segments.TwelveBlocks | plans/streaming_test/src/utils.rs:213-227 | 6 Mbit/s for 4 seconds are 12 blocks of the standard size or 6 of the largest |
| Segments.SplitsExactlyWhen | plans/streaming_test/src/utils.rs:63-80 | that condition, for any number of bits and the blocks the loop makes of the wrapped number |
| Segments.SplitIsCeiling | plans/streaming_test/src/utils.rs:71-80 | the number of blocks is the quotient rounded up |
| Segments.LoopSplits | plans/streaming_test/src/utils.rs:71-100 | a counter of full blocks and one remainder add up exactly |
| Streamer.VideoSource.GenerateVideo | plans/streaming_test/src/roles/streamer.rs:184-225 | one call puts all adds into the queue and then one publish with the old counter and exactly their CIDs |
| Streamer.UninterruptedAdds | plans/streaming_test/src/roles/streamer.rs:200-224 | that call is a path of the interleaved model, with the same queue |
| Streamer.AlignedAdd | plans/streaming_test/src/ipfs/block_exchange.rs:167-207 | when every CID has data, the code as written is right and keeps it so |
| Streamer.AfterKeeps | plans/streaming_test/src/roles/streamer.rs:200-224 | the queue, segment, numbering and store invariant over every interleaving |
| Streamer.StreamerAligned | plans/streaming_test/src/roles/streamer.rs:193-222 | on every run of the streamer the swapping branch is never taken and every published CID can be read back with data that hashes to it |
| Streamer.PublishedReadsBack | plans/streaming_test/src/ipfs/client.rs:119-179 | what is read back for a published CID is a block generated or received in the run with the same hash as the block generated for it, and is that very block unless the run brought another with the same CID; messages are numbered in the order published |
| Streamer.StreamerSendsGenuine | plans/streaming_test/src/ipfs/background.rs:386-429 | on every run of the streamer, every block sent to a peer hashes to the CID it is sent for |
| Streamer.AnnouncedSegmentCompletes | plans/streaming_test/src/roles/streamer.rs:210-224 | after a publish is queued, on every run with any network events in between, its message is the next one published, exactly when the background task has taken as many commands as were queued; it can always take the next |
| VideoStreams.VideoStream.AddSegment | plans/streaming_test/src/video_player.rs:116-164 | push and sort on both deques is one stable insertion of the pair |
| VideoStreams.VideoStream.TakeNext | plans/streaming_test/src/video_player.rs:191-209 | pops both deques together up to the segment the wrapping rule selects |
| VideoStreams.VideoStream.AdvanceStream | plans/streaming_test/src/video_player.rs:166-238 | the three branches of a tick, with the fetch set cleaned up |
| VideoStreams.VideoStream.Play | plans/streaming_test/src/video_player.rs:271-308 | asks for the oldest announced segment, then advances |
| VideoStreams.VideoStream.RunLoop | plans/streaming_test/src/video_player.rs:256-268 | any order of messages, arrivals and ticks is a run of the state machine |
| StableSort.InsertedIsStable | plans/streaming_test/src/video_player.rs:147-163 | the place of a stable insertion is sorted and stable |
| PlayerRuns.RunKeeps | plans/streaming_test/src/video_player.rs:113-238 | over every run: buffer sorted, segments asked for in the order announced, fetch set within the fetches under way, no message lost or doubled, stall law |
| PlayerRuns.FetchingUnderWay | plans/streaming_test/src/video_player.rs:220-235 | the fetch set stays within the fetches under way, and a playing tick drops from it exactly the indices below the segment played |
| PlayerRuns.AdvanceConserves | plans/streaming_test/src/video_player.rs:191-213 | a playing tick takes one segment to play and counts exactly those it drops |
| PlayerRuns.StallsComeInThrees | plans/streaming_test/src/video_player.rs:175-212 | every stall ended by playback lasted a multiple of three ticks |
| PlayerRuns.PlayingTick | plans/streaming_test/src/video_player.rs:191-213 | with a newest index of at least 30, a tick plays nothing more than 30 behind; it drops segments exactly when the head is further behind, and then plays the first at most 15 behind; dropped, played and rest make up the buffer |
| PlayerRuns.CatchUp | plans/streaming_test/src/video_player.rs:196-209 | which segment a tick plays, for a newest index of at least 30, 15 to 29, and below 15 |
| PlayerRuns.SkipsAsIntendedExactlyWhen | plans/streaming_test/src/video_player.rs:196-209 | exactly when the wrapping rule selects what the rule without wrap-around would |
| PlayerRuns.FirstSegmentDropped | plans/streaming_test/src/video_player.rs:196-209 | a run from a fresh player that plays segment 2 and skips segment 1, where the rule without wrap-around plays segment 1 |
| PlayerProgress.StepAsks | plans/streaming_test/src/video_player.rs:274-295 | each tick takes exactly the head of the queue, when there is one, and starts its fetch; no other event takes from the queue, and only an arrival ends a fetch |
| PlayerProgress.StepFetching | plans/streaming_test/src/video_player.rs:220-280 | the fetch set after any event, index by index |
| PlayerProgress.NothingPassedOver | plans/streaming_test/src/video_player.rs:271-295 | over every run, what was asked for followed by what still waits is what waited followed by what was announced |
| PlayerProgress.FetchesAccounted | plans/streaming_test/src/video_player.rs:282-295 | over every run, fetches in flight and segments delivered are those in flight before and those asked for, counted with repetitions |
| PlayerProgress.AskedInTime | plans/streaming_test/src/video_player.rs:271-295 | a message with n others ahead of it is asked for at tick n + 1, not sooner and not later, and from then on its segment is in flight or delivered |
| PlayerProgress.StepTakes | plans/streaming_test/src/video_player.rs:166-213 | only a tick that finds a segment and no wait plays; every other event leaves what was played, dropped and taken off as it is, and only an arrival changes the buffer |
| PlayerProgress.NothingTakenBetween | plans/streaming_test/src/video_player.rs:147-189 | over any stretch in which no tick plays, nothing leaves the buffer, and it ends as the stable sort of what it held and what arrived |
| PlayerProgress.PlayedCount | plans/streaming_test/src/video_player.rs:191-213 | over every run the segments played number the ticks that found a segment and no wait |
| PlayerRuns.InOrderExactlyWhenNoneLate | plans/streaming_test/src/video_player.rs:147-213 | segments leave the buffer in order, and stay in order with what is buffered, if and only if none arrives below the one playing |
| PlayerRuns.IncreasingExactlyWhen | plans/streaming_test/src/video_player.rs:147-213 | strictly increasing if and only if moreover no index arrives twice |

## Left out

- libp2p, Kademlia, GossipSub, Ping and the bitswap wire protocol: their events are arbitrary inputs, and `send_block`, `want_block` and `publish` are log entries.
- Hashing, random bytes, JSON: a digest function and a byte source are parameters; a message is passed as a value.
- Time, metrics and logging: timestamps are opaque values paired with their segment; latency and jitter are not computed.
- Subscribe, ListenOn, Dial, DhtAdd and Bootstrap commands, address exchange, Testground signals, `custom_instance_params`: bookkeeping that adds only easy members.
- Panics from dropped channel receivers: receivers are taken to live as long as the node.
- The failure result of a gossipsub publish: it is only logged; `published` holds every message handed over.
- Peers of the streamer ask only for CIDs from published messages, and a block received hashes to its CID: assumptions of the streamer results, stated in `Streamer.Enabled`.
- The order in which `join_all` first polls the add futures: the interleaved model allows every order.
- PlayerRuns.StallsComeInThrees: the tick counter `stopped` is unbounded here; on `u64` the law would end after 2^64 ticks without playback.
- Segments.GenerateBlocks: memory is unbounded, so the wrapped loop of 2^64 blocks comes to an end in the model.
- The second copy of the insertion sort, and the three copies of the sending loop: each is written once here and called from every place.
