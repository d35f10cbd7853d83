# Order book, market-data front end and metrics: models and proofs

A Dafny 4.11 model of a low-latency order book: the matching engine in C++, the FPGA receive path that
decodes a market-data feed from raw Ethernet frames, and the lock-free metrics pipeline beside them.

**Order book** (`Types`, `ObjectPool`, `PriceLevel`, `Bitmap`, `Ladder`, `OrderBook`, specified by `BookSpec`,
`ExecuteLaws`, `BookLaws`, `BookMeaning`). Classes over a slot pool whose free list and live lists share
storage, intrusive FIFO lists, direct-mapped price ladders, occupancy bitmaps and an id map. Every public method
is proved against one function on a simple book (per side, a sequence of resting orders, best first): `View()`
after the call equals that function of `View()` before it. About the functions it is then proved that matching
is greedy in price-time priority, conserves shares, never leaves the book crossed over any run of operations,
and exactly when the two market-order loops agree; `BookMeaning` says order by order what each operation does to
the two queues. `BookReplay` drives the book from an ITCH stream of many symbols; `ReplayMeaning` says what one
message does, by its type letter.

**Receive path** (`Axis`, `Gearbox`, `GearTheorem`, `Layer`, `HoldReplay`, `EthParser`, `Ipv4Parser`,
`UdpParser`, `MoldParser`, `FeedTop`, `ItchParser`; reference `Bytes`, `Checksum`, `Frames`, `FrameBuild`,
`ItchDecode`, `ItchEncode`, `MoldStream`; results `FeedLaws`, `FeedPasses`, `GapFeed`, `ItchLaws`, `FeedItch`,
`Divergence`). Each RTL module is a clocked class proved equal to a step function, and the theorems quantify
over every input trace, every idle schedule of the source and every stall schedule of the sink (the handshake of
section 2.2 of AMBA AXI4-Stream, IHI 0051A). The central invariant is conservation: what a module hands over in
a cycle, followed by what it will still hand over, is what it would have handed over before. It composes: the
input a layer has still to receive is the output the layer before has still to send. The headers are those of
section 3.1 of RFC 791, sections 1 and 2 of RFC 1071, RFC 768, IEEE 802.1Q, MoldUDP64 and the Nasdaq
TotalView-ITCH 5.0 messages.

**Metrics** (`SpscRing`, `Recorder`, `Aggregator`, `Pipeline`, `Buckets`, `Histogram`, `BookView`). The ring and
the seqlock are interleavings of single atomic steps with program counters for both threads; index counters
wrap; an acquire load of the ring's indices may return any value since the last one seen. `Pipeline` composes
recorder, ring and run loop step by step; the classes are proved on top of the same steps.

Where hardware and software differ the model follows the code, a lemma gives the exact condition under which
they agree, and a lemma at a concrete input shows the difference:

- the Ethernet layer drops an IPv4 frame that ends in the beats it sniffs (`EthAgreesIff`; `ShortFrame`);
- the IPv4 layer takes a total length equal to the header length for "to the end", does not check that the data
  is as long as declared, and drops a payload that ends in the header's beats (`Ipv4AgreesIff`; `PartedPackets`);
- a header of fewer than three words is decided from the registers that the previous packet left
  (`ShortHeaderAgreesIff`, `ShortHeaderAfter`; `StaleDecision`);
- the UDP layer does not check that the data is as long as declared (`UdpAgreesIff`; `LongSegment`);
- an untagged frame whose ethertype claims a tag is read as tagged; layers and reference part exactly when the
  total length then reads as the IPv4 ethertype, 2048, and still nothing comes of it (`FramedAgreedIff`,
  `MisreadIsHarmless`; `MisreadFrame`);
- a deliberately bad IPv4 checksum is invisible exactly when the other words fold to 0xFFFF (`ChecksumOf`;
  `BadChecksumAccepted`);
- two messages that end in the same cycle show as one strobe (`AllShownIff`; `ShortMessagesMerge`);
- a zero length ends the software's walk and is skipped by the hardware (`SoftwareAgreesIff`;
  `MessageBehindPadding`);
- an order emptied by a modify shields the levels behind it from `executeMarketOrder` (`ExecuteAgreesIff`,
  `MarketOrdersAgree`; `ExecuteDiffers`).

The datagram builder accepts 65535 messages, whose count is that of the end-of-session marker, so that they
carry nothing (`MoldPayloadOf`; `FullPacketIsMarker`); no wire frame has room for so many.

`dafny verify dfyconfig.toml` checks the whole project.

## Model

| member | source | states |
|---|---|---|
| BookSpec.InsertKeepsPriority | src/orderbook.cpp:5-24 | Resting an order cuts the queue in two: nobody ahead of it has a worse price, everybody behind it a strictly worse one, and both parts keep their order (price priority, then arrival). |
| BookSpec.InsertSorted | src/orderbook.cpp:13-20 | Resting an order keeps the side sorted by price. |
| BookSpec.RemoveAt | src/orderbook.cpp:26-45 | With unique ids, cancelling the order at rank k takes out exactly that order and leaves everybody else in order. |
| BookSpec.GreedyClosedForm | src/orderbook.cpp:100-142 | For every queue, limit and quantity, matching serves a front part of the queue in full, at most the next order in part, touches nobody else, prices every trade at the maker, and stops only when the taker is filled, the queue is empty or the next price is past the limit. |
| BookSpec.GreedyConserves | src/orderbook.cpp:100-142 | Traded shares plus the remainder are the taker's quantity; traded shares plus what rests afterwards are what rested before. |
| BookLaws.AddKeeps | src/orderbook.cpp:5-24 | Resting a fresh order keeps the book well formed; an uncrossed book stays uncrossed if and only if the order does not reach the best opposite price; off the ladder nothing changes. |
| BookLaws.MatchKeeps | src/orderbook.cpp:100-142 | Matching keeps the book well formed and uncrossed and introduces no id. |
| BookLaws.RemainderDoesNotCross | src/orderbook.cpp:105-107 | A remainder is left only when no order left on the other side would still trade at the limit. |
| BookLaws.LimitKeeps | src/orderbook.cpp:144-149 | A limit order leaves an uncrossed book uncrossed, whatever its price and quantity, if what rests of it has an id that is not resting by then. |
| BookLaws.LimitConserves | src/orderbook.cpp:144-149 | The quantity is split exactly: what the other side lost was traded, what this side gained is the remainder, lost only if its price is off the ladder. |
| BookLaws.RunKeeps | include/orderbook.hpp:55-60 | Every run of limit, market, execute, cancel and modify operations from an uncrossed book, remainders resting under ids that are not resting by then, ends well formed and uncrossed. |
| BookLaws.NextIsFresh | include/orderbook.hpp:45-47 | A book whose ids are all its own, handed out one after the other, never hands out an id that is resting, over any run of additions, executions, cancels, modifies and market orders. |
| BookLaws.MarketOrdersAgree | src/orderbook.cpp:47-81 | executeMarketOrder and submitMarket leave the same book if and only if every level the order is large enough to pass ends in an order with shares, and then the returned fill is the total of the trades. |
| BookLaws.DepthIsTheSide | include/orderbook.hpp:79-93 | Depth levels are at strictly worsening prices from the best, and over enough levels account for every resting share. |
| BookMeanings.AddRests | src/orderbook.cpp:5-24 | An order rests at its own price with its own quantity: the side is cut in two, everybody ahead has that price or a better one, everybody behind a worse one, and the other side is as it was. |
| BookMeanings.RemainderRests | src/orderbook.cpp:144-149 | What a limit order leaves untraded rests at its limit under its id, behind everybody at that price, and is found there; the rest of its side is as it was, and nothing rests if nothing is left or the limit is off the ladder. |
| BookMeanings.CancelTakesOut | src/orderbook.cpp:26-45 | Cancelling the order at any rank of a side takes out exactly that one; the other side is as it was. |
| BookMeanings.ModifyRequantifies | src/orderbook.cpp:83-94 | Modifying the order at any rank changes its quantity and nothing else, on either side. |
| BookMeanings.MatchServes | src/orderbook.cpp:100-142 | The makers of the opposite side are served in rank: full ones each with one trade at its price, its quantity, its id and the taker's, while shares are wanted and the price is within the limit; then one in part, or the reason for stopping. |
| BookMeanings.MarketServes | src/orderbook.cpp:151-157 | A market order is not limited by any 64-bit price: it takes its quantity, or everything there is. |
| BookMeanings.ExecuteTakes | src/orderbook.cpp:47-81 | The level-by-level loop takes from the front: some orders in full, then one in part if nothing more is wanted; it ends filled, on an empty side, or in front of a best level whose orders are all empty. |
| BookMeanings.DepthShows | include/orderbook.hpp:79-93 | Every depth entry has a price at which orders rest and the total of exactly those. |
| BookMeanings.DepthIsBest | include/orderbook.hpp:79-93 | An order whose price is not shown is worse than every entry, and there are as many entries as were asked for. |
| ExecuteLaws.ExecuteAgreesIff | src/orderbook.cpp:50-62 | The level-by-level loop and the order-by-order loop leave the same queue exactly when the order goes through the levels it passes. |
| ExecuteLaws.PositiveGoesThrough | src/orderbook.cpp:50-62 | With positive resting quantities every order goes through, so the two loops always agree. |
| ExecuteLaws.ExecuteDiffers | src/orderbook.cpp:83-94 | The smallest book on which they differ: an order modified to zero in front of a level that has shares. |
| ObjectPools.Partition | include/object_pool.hpp:60-66 | The free list and the live slots partition the capacity: distinct, disjoint, together everything. |
| ObjectPools.ObjectPool.constructor | include/object_pool.hpp:19-26 | Starts with no live slot and the initial capacity, or one chunk if that is zero, all on the free list. |
| ObjectPools.ObjectPool.AddChunk | include/object_pool.hpp:68-79 | Grows the free list by n new slots without moving or changing any old one. |
| ObjectPools.ObjectPool.Allocate | include/object_pool.hpp:33-43 | Hands out the slot freed last, growing on demand; the slot was not live, holds the new order, and no other live slot changes. |
| ObjectPools.ObjectPool.Deallocate | include/object_pool.hpp:46-53 | The slot becomes the head of the free list; nothing else changes. |
| PriceLevels.PriceLevel.AddOrder | include/price_level.hpp:40-56 | The level's list gains the order at its tail; head, tail, links both ways, total and count describe the longer list; only links changed. |
| PriceLevels.PriceLevel.RemoveOrder | include/price_level.hpp:59-81 | Removes the order at any position: links, ends, total and count describe the list without it, in the same order. |
| PriceLevels.PriceLevel.Amend | src/orderbook.cpp:89-92 | Writing an order's quantity and adjusting the total by the difference keeps the level's total the sum of its orders. |
| PriceLevels.PriceLevel.ReduceHeadQuantity | include/price_level.hpp:84-95 | Takes shares from the oldest order; removes it when it is emptied; does nothing when it has fewer. |
| Bitmaps.SetBit | include/orderbook.hpp:113 | Sets exactly the one bit of the map. |
| Bitmaps.ClearBit | include/orderbook.hpp:114 | Clears exactly the one bit of the map. |
| Bitmaps.HighestSetBit | include/orderbook.hpp:115-119 | The word scan returns the highest set bit of the whole map, -1 if and only if there is none. |
| Bitmaps.LowestSetBit | include/orderbook.hpp:120-124 | The word scan returns the lowest set bit of the whole map, -1 if and only if there is none. |
| LadderViews.AppendIsInsert | src/orderbook.cpp:11-21 | Appending to the FIFO of a price is resting the order in price-time priority. |
| LadderViews.UnlinkIsRemove | src/orderbook.cpp:32-40 | Unlinking an order from its FIFO is removing it from the sorted queue. |
| LadderViews.FlatOrdered | include/orderbook.hpp:126-129 | The levels of a side, walked from best to worst, are the sorted queue. |
| Ladders.Ladder.constructor | include/orderbook.hpp:29-38 | All levels empty at their prices, no bit set, no best level. |
| Ladders.Ladder.Rest | src/orderbook.cpp:11-21 | Appends, sets the bit and moves the best index if the level was empty; the side then shows the order inserted in priority and the representation holds. |
| Ladders.Ladder.Unrest | src/orderbook.cpp:32-40 | Unlinks, clears the bit if the level emptied and rescans for the best index if it was the best; the side then shows the order removed. |
| Ladders.Ladder.BestFront | src/orderbook.cpp:15-20 | The best index is the level of the first order of the side, -1 exactly when the side is empty. |
| OrderBooks.OrderBook.constructor | include/orderbook.hpp:28-40 | An empty, valid book with the given ladder, all of it freshly allocated; the next id is 1. |
| OrderBooks.OrderBook.AddOrder | src/orderbook.cpp:5-24 | The view is the old view with the order rested, at its price, in priority; ladder, bitmap, lists, map, pool and counter agree; off the ladder nothing happens and 0 is returned. |
| OrderBooks.OrderBook.AddNext | include/orderbook.hpp:45-47 | Rests under the book's own next id and advances it; resting ids stay below the next one. |
| OrderBooks.OrderBook.NextIsFree | include/orderbook.hpp:45-47 | While every resting id is below the next one, the next id is free, which is what AddNext needs. |
| OrderBooks.OrderBook.CancelOrder | src/orderbook.cpp:26-45 | True exactly when the id rests; then exactly that order is gone from every structure and its slot is free again. |
| OrderBooks.OrderBook.ModifyOrder | src/orderbook.cpp:83-94 | True exactly when the id rests; then its quantity is the new one at the same rank and the level total follows. |
| OrderBooks.OrderBook.Match | src/orderbook.cpp:100-142 | The walk over ladder, bitmap and lists, cancelling as it goes, emits exactly the greedy trades and leaves exactly the greedy book and remainder. |
| OrderBooks.OrderBook.SubmitLimit | src/orderbook.cpp:144-149 | The trades are the greedy ones, the remainder rests at the limit under the taker's id, and an uncrossed book stays uncrossed. |
| OrderBooks.OrderBook.SubmitMarket | src/orderbook.cpp:151-157 | The trades are the greedy ones without a price limit; the remainder is dropped. |
| OrderBooks.OrderBook.ExecuteMarketOrder | src/orderbook.cpp:47-81 | Consumes the opposite side level by level, giving up at a level without shares; returns the shares taken. |
| OrderBooks.OrderBook.GetBest | include/orderbook.hpp:66-67 | The price of the first order of the side, 0 when there is none. |
| OrderBooks.OrderBook.GetDepth | include/orderbook.hpp:79-93 | The first levels of each side with the sums of their orders. |
| OrderBooks.OrderBook.OrderIs | include/orderbook.hpp:72-74 | What the map points to is the order the simple book holds under that id, on its side. |
| OrderBooks.OrderBook.ViewWellFormed | include/orderbook.hpp:126-133 | The book seen is always in priority order on both sides, with every id once. |
| OrderBooks.OrderBook.StructuresAgree | include/orderbook.hpp:126-133 | In every valid state: a level's bit is set exactly when it has orders, its total and count are those of the orders at its price, the best index is the level of the first order, and counter, map and live slots are as many as the queued orders, the rest of the capacity being free. |
| BookReplays.ReplayFilters | include/book_replay.hpp:8-10 | With unique references, replaying the whole stream leaves the same book as replaying only the target symbol's messages, replace chains included. |
| BookReplays.NewcomersAreFresh | include/book_replay.hpp:46-67 | In such a stream every reference that an Add or Replace rests is not live, which is what the book needs. |
| BookReplays.BookReplay.OnMessage | include/book_replay.hpp:24-33 | One message has exactly its effect on the book and on the five counters. |
| BookReplays.BookReplay.OnAdd | include/book_replay.hpp:46-50 | Rests the order in cents if the symbol is the target, and counts it if the book accepted it under a reference other than 0. |
| BookReplays.BookReplay.OnDelete | include/book_replay.hpp:51-53 | Cancels and counts exactly the ids that rest. |
| BookReplays.BookReplay.OnReduce | include/book_replay.hpp:54-60 | Lowers the quantity by the shares, or cancels when they cover it; unknown ids do nothing. |
| BookReplays.BookReplay.OnReplace | include/book_replay.hpp:61-67 | Cancels the original and rests the replacement on its side, behind everybody at its price; counts it if the original rested and the book accepted the replacement under a reference other than 0. |
| BookReplays.BookReplay.OnStream | include/book_replay.hpp:24-33 | A whole stream of unique references leaves the book that its target-symbol messages alone would leave. |
| ReplayMeanings.AddMessage | include/book_replay.hpp:46-50 | An 'A' or 'F' of the target symbol rests under its reference, with its shares, at its price in whole cents: a 'B' among the bids, any other side byte among the offers; everybody else stays in rank. |
| ReplayMeanings.AddIgnored | include/book_replay.hpp:46-50 | Of another symbol, or off the ladder, it changes nothing. |
| ReplayMeanings.DeleteMessage | include/book_replay.hpp:51-53 | A 'D' takes out exactly the order it names. |
| ReplayMeanings.ReduceMessage | include/book_replay.hpp:54-60 | An 'X', 'E' or 'C' lowers the shares of the order it names at its rank, or takes it out if it had no more than that; everybody else stays. |
| ReplayMeanings.ReplaceMessage | include/book_replay.hpp:61-67 | A 'U' takes out the order it names and rests the new reference on the same side, at the new price with the new shares, behind everybody at that price; off the ladder it only takes out. |
| ReplayMeanings.NothingNamed | include/book_replay.hpp:24-33 | A message that names no resting order, and one of any other type, changes nothing. |
| ReplayMeanings.MessageCounts | include/book_replay.hpp:24-67 | Each counter rises by one exactly for its letters, and for the messages that changed the book. |
| Axis.FramesOfPackAll | fpga/README.md:214-219 | Splitting packed frames at tlast gives the non-empty byte strings back, in order. |
| Gearboxes.AxisSkipAlign.Clock | fpga/rtl/axis_skip_align.v:40-157 | One clock edge of the registers is the step function: acceptance, control sampled on the first beat, gather, emit, frame end. |
| Gearboxes.AxisSkipAlign.GatherLanes | fpga/rtl/axis_skip_align.v:72-84 | The lane loop, lane by lane. |
| Gearboxes.GatherIsPayload | fpga/rtl/axis_skip_align.v:72-84 | The lane loop appends exactly the bytes of the beat that are payload: behind the skip, within the budget, not of a dropped frame. |
| GearTheorems.StepConserves | fpga/rtl/axis_skip_align.v:40-157 | In every cycle, what leaves followed by what is still to leave is what was to leave; fewer than eight bytes stay staged. |
| GearTheorems.GearContract | fpga/README.md:214-219 | From reset, for back-to-back frames with their own skip, length and drop, any cutting and any stalls: the output is the packed slices in order, and once drained splits at tlast into exactly the non-empty slices. |
| GearTheorems.OfferedIsStable | fpga/rtl/axis_skip_align.v:97-137 | An offered beat stays offered and unchanged until it is taken, and nothing is accepted meanwhile. |
| GearTheorems.NeverStrands | fpga/rtl/axis_skip_align.v:38-47 | With downstream ready, input ready is never low for two cycles running. |
| HoldReplays.HoldReplay.Clock | fpga/rtl/eth_parser.v:58-134 | One clock edge of the hold-and-replay machine: sniff and hold, drain held beats, pass through, back to sniffing at the frame's end. |
| Layers.LayerConserves | fpga/rtl/eth_parser.v:58-134 | Every cycle of a layer with a sound sniffer conserves its stream, in every state and for every input. |
| Layers.LayerTraceConserves | fpga/rtl/eth_parser.v:58-134 | For every list of frames and every schedule: what a layer handed on, followed by what it still will, is the slice of every frame by its decision. |
| Layers.Link | fpga/rtl/feed_top.v:35-40 | The beat on offer is the next beat the receiving layer expects, and taking it advances both by one. |
| EthParsers.EthParser.Clock | fpga/rtl/eth_parser.v:28-134 | The module's registers take the step; the three parked beats are never overrun, whatever arrives. |
| EthParsers.EthSound | fpga/rtl/eth_parser.v:83-118 | The sniffed decision is the one for the whole frame: VLAN-dependent strip, ethertype filter, runts dropped. |
| EthParsers.EthAgreesIff | fpga/tb/frames.py:145-154 | The layer agrees with the reference on a frame unless it is an IPv4 frame that ends in the sniffed beats. |
| Ipv4Parsers.Ipv4Parser.Clock | fpga/rtl/ipv4_parser.v:27-171 | The module's registers take the step; the eight parked beats are never overrun, whatever arrives. |
| Ipv4Parsers.Ipv4Sound | fpga/rtl/ipv4_parser.v:87-155 | With the sum accumulated beat by beat, the decision is the one for the whole packet, for every header of three words or more. |
| Ipv4Parsers.CsumNextIs | fpga/rtl/ipv4_parser.v:99-105 | After each header beat the register holds the sum of exactly the header words so far. |
| Ipv4Parsers.Ipv4AgreesIff | fpga/tb/frames.py:157-169 | On headers of three words or more, and on packets within one beat, the layer agrees with the reference except in the three named cases, all with an otherwise good header. |
| Ipv4Parsers.ShortHeaderDecision | fpga/rtl/ipv4_parser.v:127-155 | Any shorter header is decided on its first beat, from the registers as they were: length from the stale total and header length, dropped if they are bad, too short, or the first beat does not sum up. |
| Ipv4Parsers.ShortHeaderAgreesIff | fpga/tb/frames.py:157-169 | There the layer agrees with the reference, which rejects such a packet, if and only if the registers or the sum of the first beat make it drop. |
| Ipv4Parsers.LeavesRegisters | fpga/rtl/ipv4_parser.v:138-146 | A packet whose header arrived leaves its own header length, total length and verdict in the registers, whatever was there before. |
| Ipv4Parsers.ShortHeaderAfter | fpga/rtl/ipv4_parser.v:138-155 | So behind such a packet the decision on a short header is a function of the two packets: kept bytes and drop are those of the previous one. |
| Ipv4Parsers.StaleDecision | fpga/rtl/ipv4_parser.v:141-152 | Two packets and a short header: behind the one it is accepted, behind the other, which differs in its protocol, dropped. |
| Checksums.OnesComplementSum | fpga/tb/frames.py:18-26 | The loop returns the complement of the sum folded at every step, an odd last byte counting as a high byte. |
| Checksums.ChecksumsAgree | fpga/rtl/ipv4_parser.v:108-112 | Adding first and folding three times accepts exactly the headers that folding at every step sums to 0xFFFF, and the 32-bit sum does not overflow. |
| UdpParsers.UdpConserves | fpga/rtl/udp_parser.v:23-45 | Every cycle of the register-free layer conserves its stream. |
| UdpParsers.UdpCtlIs | fpga/rtl/udp_parser.v:23-34 | The control word wired from beat 0 is the decision for the whole segment: port, length, runt. |
| UdpParsers.UdpAgreesIff | fpga/tb/frames.py:172-179 | The layer agrees with the reference unless an addressed segment declares more than there is. |
| MoldParsers.MoldParser.Clock | fpga/rtl/mold_parser.v:33-174 | The module's registers and both strobes take the step; the three parked beats are never overrun. |
| MoldParsers.MoldSound | fpga/rtl/mold_parser.v:93-157 | The decision is the one for the whole datagram, with the sequence number stitched across two beats. |
| MoldParsers.MoldAgrees | fpga/tb/frames.py:182-205 | The payload handed on is the reference's for every datagram: nothing for runts, heartbeats and end of session. |
| MoldParsers.HeadersOfRun | fpga/rtl/mold_parser.v:138-151 | In every run the headers shown are those of the complete datagrams, each once, in order, with the gap flag of the tracker. |
| MoldParsers.GapIsLoss | fpga/rtl/mold_parser.v:98-105 | On any subsequence of a correctly numbered stream the tracker flags exactly the datagrams before which a message was lost since the previous one, and never the first. |
| MoldParsers.SeqGapMeansLoss | fpga/rtl/mold_parser.v:98-151 | The same on the strobes of every run from reset, however cut, idled and stalled. |
| MoldStreams.GapIffWithheld | fpga/rtl/mold_parser.v:98-151 | On the datagrams of a real sender, packets, heartbeats and markers numbered by the messages sent before, any of them withheld: the header shown for a delivered one has its number and its count, and a gap exactly when a packet with messages was withheld since the last delivery; never the first. |
| MoldStreams.NothingWithheld | fpga/rtl/mold_parser.v:98-151 | With everything delivered, no header has a gap. |
| MoldStreams.StrobesOfSender | fpga/rtl/mold_parser.v:98-151 | In every run from reset, however cut, idled and stalled, the strobes shown so far are the first of those headers, one for each delivery. |
| FeedTops.FeedTop.Clock | fpga/rtl/feed_top.v:35-75 | The four modules wired together take the chain's step, ready flowing upstream. |
| FeedTops.FeedConserves | fpga/rtl/feed_top.v:42-75 | Every cycle of the chain conserves every hop and the stream at its end. |
| FeedTops.FrontEndContract | fpga/rtl/feed_top.v:42-75 | From reset, for every list of frames and every schedule: what the sink took, followed by what is still to leave, is each frame's payload, packed. |
| FeedTops.AgreedUnwraps | fpga/tb/frames.py:190-205 | On a frame that meets the four layers' conditions the chain makes what the reference unwraps. |
| FeedLaws.FramedAgreedIff | fpga/tb/frames.py:84-103 | Every framed datagram, message packet or marker, any header length, tag, padding, addresses, wrong ethertype, protocol, port or checksum, meets those conditions if and only if it is not an untagged frame of ethertype 0x8100 whose total length is 2048. |
| FeedLaws.MisreadIsHarmless | fpga/tb/frames.py:84-103 | And nothing comes of such a frame either: whatever the registers of the IPv4 layer, the UDP layer drops what it hands on, and the reference unwraps nothing. |
| FeedLaws.WireFrameAgreed | fpga/tb/frames.py:97-103 | Every frame built from messages without a variant meets those conditions, for any header length, tag, padding and addresses. |
| FeedLaws.FeedUnwraps | fpga/tb/frames.py:190-205 | In every run the bytes taken, followed by those still to leave, are the joined unwrapped frames. |
| FeedLaws.MixedTraffic | fpga/tb/test_feed_top.py:95-137 | Datagrams of messages, rejected variants and markers mixed in any order: in every run the bytes taken, followed by those still to leave, are the payloads of the accepted datagrams, joined. |
| FeedPasses.OnlyFeedPasses | fpga/rtl/feed_top.v:42-75 | Whatever comes out of the chain stands in its frame behind an IPv4 ethertype, tagged or not, a version 4 header of five words or more for protocol 17 that sums to one's-complement zero, destination port 26477 and a message count other than 0 and 65535. |
| FeedPasses.Ipv4Passes | fpga/rtl/ipv4_parser.v:87-155 | What the IPv4 layer hands on follows such a header, up to its total length. |
| FeedLaws.MessagesComeThrough | fpga/tb/frames.py:120-140 | However a message list is grouped into datagrams, the bytes taken in any run are a prefix of its framed stream, and all of it once nothing is left. |
| FeedLaws.FeedProgress | fpga/README.md:441-455 | With sink ready and source offering, every cycle of the chain leaves strictly less to do until nothing is left: no deadlock. |
| FeedLaws.MessagesArrive | fpga/README.md:441-455 | So within fifteen cycles for each input beat the whole framed stream has come out. |
| GapFeeds.TrafficHeaders | fpga/rtl/feed_top.v:64-85 | At the end of the whole chain: for any mix of datagrams, rejected variants and markers, the headers shown are those of the accepted datagrams, in order. |
| GapFeeds.InOrderNoGap | fpga/tb/test_feed_top.py:70-90 | A packetized message list sent in order through the chain shows no gap in any run. |
| FrameBuild.SplitMessages | fpga/tb/frames.py:108-117 | The loop returns the bodies in order, as long as a non-zero length is followed by that many bytes. |
| FrameBuild.SplitOfBlocks | fpga/tb/frames.py:108-117 | Splitting undoes framing: for non-empty bodies it returns the original list. |
| FrameBuild.EmptyBodyStops | fpga/tb/frames.py:113-114 | An empty body ends the walk: only what came before it is returned. |
| FrameBuild.ChecksumOf | fpga/tb/frames.py:77-80 | The built header checksum verifies; a deliberately bad one does exactly when the other words fold to 0xFFFF. |
| FrameBuild.UnwrapMoldOf | fpga/tb/frames.py:31-51 | Sequence, count and payload are read back from a built datagram, heartbeats and end-of-session markers included. |
| FrameBuild.MoldPayloadOf | fpga/tb/frames.py:31-51 | A built datagram carries its blocks, unless it has 65535 messages, whose count is the end-of-session marker; heartbeats and end-of-session datagrams carry nothing. |
| FrameBuild.UnwrapUdpOf | fpga/tb/frames.py:54-56 | A built segment unwraps to its payload if addressed to the feed port, else to nothing. |
| FrameBuild.UnwrapIpv4Of | fpga/tb/frames.py:59-81 | A built packet, padded or not, unwraps to its payload if it is UDP and its checksum verifies, for every header length. |
| FrameBuild.UnwrapEthOf | fpga/tb/frames.py:84-94 | A built frame unwraps to its padded payload if its ethertype is IPv4; an untagged one whose ethertype claims a tag to what follows the payload's fourth byte, if its second word is the IPv4 ethertype; any other to nothing. It is at least sixty bytes. |
| FrameBuild.UnwrapOfFramed | fpga/tb/frames.py:97-103 | Unwrapping any framed datagram gives its payload if no layer rejects the variant, else nothing. |
| FrameBuild.UnwrapOfWireFrame | fpga/tb/frames.py:97-103 | Unwrapping a built frame returns exactly the framed messages if no layer rejects the variant, else nothing; framed heartbeats and end-of-session markers give nothing. |
| FrameBuild.Packetize | fpga/tb/frames.py:120-140 | The loop builds one frame per drawn group, numbered consecutively, and the framed stream of the whole list. |
| FrameBuild.PacketsUnwrap | fpga/tb/frames.py:120-140 | Unwrapping those frames and joining the results gives the framed stream. |
| MoldStreams.PacketsAreDatagrams | fpga/tb/frames.py:120-140 | The packetizer's frames are the framed datagrams of such a sender: non-empty groups of at most the drawn size, in order, each with the number of its first message. |
| FrameBuild.MoldBytes | fpga/tb/frames.py:31-42 | The built datagram field by field: session, number, count, blocks. |
| FrameBuild.UdpBytes | fpga/tb/frames.py:54-56 | The built segment field by field: both ports, length, no checksum, payload. |
| FrameBuild.Ipv4Bytes | fpga/tb/frames.py:59-81 | The built packet field by field: version and words, total length, time to live 64, protocol, checksum, source, destination, NOP options, payload. |
| FrameBuild.EthBytes | fpga/tb/frames.py:84-94 | The built frame field by field: destination, source, tag, ethertype, payload, zeros up to 46 bytes. |
| ItchDecode.ReadBe | include/itch_parser.hpp:21-26 | The shift loop computes the big-endian field. |
| Bytes.BeFour | include/itch_parser.hpp:17-20 | A four-byte field is read most significant byte first. |
| ItchEncode.OrderDecoded | include/itch_parser.hpp:48-104 | Each of the seven order messages, built with its letter and fields in the layout of the standard, is decoded to exactly those fields, whatever follows in the body. |
| ItchEncode.NotModeled | include/itch_parser.hpp:48-108 | A body too short for its letter, an empty one and one of any other type are not modeled, and leave only type and, where there is room, time stamp. |
| ItchDecode.ParseBuffer | include/itch_parser.hpp:113-125 | The callback sees the modeled messages of the framed bodies, in order, and the result is their number. |
| ItchParsers.ItchParser.Clock | fpga/rtl/itch_parser.v:59-119 | One clock edge of the registers, walking the lanes with temporaries, is the step function. |
| ItchParsers.FieldsAreDecoded | fpga/rtl/itch_parser.v:123-177 | The field wires equal the software decode for every body, whatever is stale behind it, truncated known types and unknown types included. |
| ItchParsers.LanesMirror | fpga/rtl/itch_parser.v:78-107 | Over one beat the registers mirror the arrived part of the current block, and the snapshot is the last body completed. |
| ItchParsers.ShownAreLasts | fpga/rtl/itch_parser.v:106-116 | For every stream and cutting: one strobe per cycle that completes a message, with the decode of the last one it completes. |
| ItchParsers.CuttingCompletes | fpga/rtl/itch_parser.v:78-107 | How bytes are cut into beats, keep masks and idle cycles does not matter to the bodies completed. |
| ItchLaws.FedIsBodies | fpga/rtl/itch_parser.v:81-105 | Byte by byte, a stream completes exactly its length-prefixed bodies, zero lengths skipped. |
| ItchLaws.OneStrobePerMessage | fpga/rtl/itch_parser.v:59-119 | If the complete messages have at least six bytes: one strobe for each, in order, equal to the software decode. |
| ItchLaws.AllShownIff | fpga/rtl/itch_parser.v:112-116 | In every run there are as many strobes as complete messages in the stream if and only if no cycle completes two, and never more. |
| ItchLaws.ShortMessagesMerge | fpga/rtl/itch_parser.v:112-116 | Two one-byte messages in one beat show as one strobe, the second. |
| ItchLaws.SoftwareAgreesIff | include/itch_parser.hpp:116-123 | Software and hardware see the same bodies if and only if none is complete behind the first zero length. |
| ItchLaws.HardwareIsSoftware | include/itch_parser.hpp:113-125 | Then the strobes with msg_modeled are the messages the software reports. |
| FeedItch.ShowsWhatWasSent | fpga/rtl/feed_top.v:42-85 | From message list to wire frames to decoded strobes: at every moment of every run the strobes so far are the decodes of the first messages sent, each once and in order. |
| FeedItch.ShowsAllThatWasSent | fpga/rtl/feed_top.v:42-85 | And within fifteen cycles for each input beat, of all of them. |
| FeedItch.OrdersArrive | fpga/rtl/feed_top.v:42-85 | From the exchange's order messages to the message bundle: encoded, packetized, framed and sent, they all come out decoded to what they are about, each once and in order. |
| Divergences.ShortFrame | fpga/rtl/eth_parser.v:83-118 | Two IPv4 frames, untagged and tagged, that end in the sniffed beats: the reference finds a payload, the layer drops it. |
| Divergences.PartedPackets | fpga/rtl/ipv4_parser.v:108-155 | One packet for each of the three cases in which the IPv4 layer parts from the reference. |
| Divergences.LongSegment | fpga/rtl/udp_parser.v:23-34 | A segment that declares one byte too many: rejected by the reference, passed by the layer. |
| Divergences.MisreadFrame | fpga/tb/frames.py:84-103 | The untagged frame of ethertype 0x8100 and total length 2048 on which layers and reference part. |
| Divergences.BadChecksumAccepted | fpga/tb/frames.py:77-80 | A packet built with a deliberately bad checksum that every receiver accepts. |
| Divergences.MessageBehindPadding | include/itch_parser.hpp:116-123 | A message behind a zero length: not returned by the software's walk, shown by the hardware. |
| Divergences.FullPacketIsMarker | fpga/tb/frames.py:31-51 | A datagram of 65535 messages carries nothing. |
| SpscRings.NextKeeps | metrics/include/spsc_ring.hpp:30-51 | Every enabled step of either thread keeps the invariant, with lagging caches and wrapped indices. |
| SpscRings.FifoWithoutRaces | metrics/include/spsc_ring.hpp:30-51 | In every interleaving what came out is a prefix of what went in, at most the capacity is in flight, and the producer never writes a slot that holds a value in flight or that the consumer is at. |
| SpscRings.RefusalsAreHonest | metrics/include/spsc_ring.hpp:32-46 | A push is refused only if the ring was full when its tail was last read, a pop only if it was empty when its head was. |
| SpscRings.SoloPushAppends | metrics/include/spsc_ring.hpp:30-39 | A push nobody interrupts succeeds exactly when there is room, and appends. |
| SpscRings.SoloPopTakes | metrics/include/spsc_ring.hpp:42-51 | A pop nobody interrupts succeeds exactly when there is a value, and takes the oldest. |
| SpscRings.SpscRing.TryPush | metrics/include/spsc_ring.hpp:30-39 | The method takes exactly those steps: true exactly when there was room, and then the value is appended. |
| SpscRings.SpscRing.TryPop | metrics/include/spsc_ring.hpp:42-51 | The method takes exactly those steps: true exactly when there was a value, and then it is the oldest. |
| Recorders.MaskIsRemainder | metrics/include/metrics_recorder.hpp:24 | Masking with 2^k - 1 takes the remainder modulo 2^k. |
| Recorders.SampledIsCeiling | metrics/include/metrics_recorder.hpp:24 | Of n calls the ceiling of n / 2^k are sampled. |
| Recorders.MetricsRecorder.RecordLatency | metrics/include/metrics_recorder.hpp:23-29 | Attempts an event exactly on sampled calls; it is pushed or counted as dropped. |
| Recorders.MetricsRecorder.RecordSnapshot | metrics/include/metrics_recorder.hpp:30-35 | Attempts one event; it is pushed or counted as dropped. |
| Recorders.MetricsRecorder.RecordTrade | metrics/include/metrics_recorder.hpp:36-41 | Attempts one event; it is pushed or counted as dropped. |
| Recorders.FatesAddUp | metrics/include/metrics_recorder.hpp:28 | Accepted plus dropped is attempted. |
| Aggregators.Aggregator.Ingest | metrics/include/aggregator.hpp:90-114 | A snapshot sets the book shown to its bid and ask; a trade sets the last price and adds its quantity; a latency is appended to the window of its operation; each is counted, and nothing else changes. Totals and windows together hold exactly the ticks seen. |
| Aggregators.BookIsLast | metrics/include/aggregator.hpp:98-102 | Over any events the book shown is that of the last snapshot. |
| Aggregators.PriceIsLast | metrics/include/aggregator.hpp:103-106 | And the last price is that of the last trade. |
| Aggregators.CountsAddUp | metrics/include/aggregator.hpp:90-114 | Trades, snapshots, volume and the ticks of an operation add up over any split of the events. |
| Aggregators.CountsOfOne | metrics/include/aggregator.hpp:90-114 | And this is what one event of each kind adds: a trade one and its quantity, a snapshot one, a latency its ticks to its operation. |
| Aggregators.NothingShown | metrics/include/aggregator.hpp:271-273 | Before any snapshot and any trade nothing is shown. |
| Aggregators.Aggregator.Roll | metrics/include/aggregator.hpp:158-182 | A render appends every window to its total and empties it; no tick is lost. |
| Aggregators.Aggregator.FinalDrain | metrics/include/aggregator.hpp:80-83 | Afterwards the ring is empty and every total holds exactly the ticks of its operation, in order. |
| Pipelines.NothingIsLost | metrics/include/aggregator.hpp:57-86 | In every interleaving of recorder and run loop in which the producer finishes before stop: attempted are every 2^k-th latency recorded and all other events; at the end each was pushed, in order, or dropped, consumed plus dropped is attempted, and the aggregator's totals of every operation hold exactly the ticks pushed for it, in order. |
| Buckets.BucketBoundary | metrics/include/latency_histogram.hpp:22-37 | A value is in bucket b or later exactly when it is not below the representative of b. |
| Buckets.BucketInRange | metrics/include/latency_histogram.hpp:18-29 | Every 32-bit value has one of the 896 buckets. |
| Buckets.RelativeError | metrics/include/latency_histogram.hpp:22-37 | The representative of a value's bucket is at most the value and within a thirty-second of it; exact below 32. |
| Histograms.LatencyHistogram.Record | metrics/include/latency_histogram.hpp:42-48 | Buckets, count, sum and extremes describe the samples with the new one. |
| Histograms.LatencyHistogram.Merge | metrics/include/latency_histogram.hpp:51-57 | As if the other histogram's samples had been recorded here. |
| Histograms.LatencyHistogram.Reset | metrics/include/latency_histogram.hpp:59-62 | No samples. |
| Histograms.LatencyHistogram.Percentile | metrics/include/latency_histogram.hpp:65-76 | The scan returns the lower bound of the bucket of the rank-th smallest sample, as sorting them gives it; 0 without samples. |
| Histograms.LargestIs | metrics/include/latency_histogram.hpp:42-48 | The maximum kept is a sample and no sample is above it; 0 without samples. |
| Histograms.SmallestIs | metrics/include/latency_histogram.hpp:42-48 | The minimum kept is a sample and no sample is below it; the largest 32-bit value without samples. |
| Histograms.SummariesOfOne | metrics/include/latency_histogram.hpp:42-48 | One sample counts once, in its own bucket, and is its own sum. |
| Histograms.PercentileRank | metrics/include/latency_histogram.hpp:65-76 | The rank counts from the smallest sample; 0 is taken for 1, and one past the number of samples for the last. |
| Histograms.SortsSamples | metrics/include/latency_histogram.hpp:64-76 | The reference is an ascending permutation of the samples. |
| Histograms.PercentileError | metrics/include/latency_histogram.hpp:64-76 | A percentile is at most the exact one and within a thirty-second of it. |
| Histograms.PercentileOfUnion | metrics/include/latency_histogram.hpp:51-57 | It depends only on the multiset of samples, not on recording order or on how they were merged. |
| BookViews.NextKeeps | metrics/include/book_view.hpp:26-46 | Every enabled step of writer or reader keeps the invariant. |
| BookViews.AcceptedIff | metrics/include/book_view.hpp:37-44 | A read is accepted if and only if nothing is being written and a multiple of 2^31 views were published since its first load. |
| BookViews.ReadsAreViews | metrics/include/book_view.hpp:26-46 | In every interleaving with fewer than 2^31 publishes during a read, each successful read is one whole view, initial or published, and successive reads never go back. |
| BookViews.BookPublisher.Publish | metrics/include/book_view.hpp:26-33 | A publish nobody interrupts leaves the view as the last one, with the sequence even again and two further on. |
| BookViews.BookPublisher.Read | metrics/include/book_view.hpp:36-46 | With the memory that each of its atomic steps sees as a parameter: the retry loop fills its output and succeeds exactly as the reader's steps of the interleaving do, the first of sixteen tries that sees an even, unchanged sequence. |
| BookViews.ReadReturnsAView | metrics/include/book_view.hpp:36-46 | So what Read returns while a writer publishes, in any interleaving with fewer than 2^31 publishes during the read, is one whole view, initial or published, and no older than any read before. |
| BookViews.ViewsAreHanded | metrics/include/book_view.hpp:26-33 | Over every run the views are the initial one and those handed to publish, each as it was and in order, the last one perhaps still being written. |
| BookViews.SixteenTries | metrics/include/book_view.hpp:36-46 | A read gives up after sixteen odd sequence numbers and not before. |

## Left out

- OrderBooks.OrderBook.AddOrder: an id that is to rest must not be resting already; the source would overwrite the map entry and leave the older order unreachable by id.
- OrderBooks.OrderBook.SubmitLimit: the same for the id of its remainder, after matching; the source promises that the book is never crossed afterwards, which is proved from an uncrossed book (plain addOrder may cross it).
- OrderBooks.OrderBook.AddNext: the same for its own next id, which a caller may have used before; `OrderBooks.OrderBook.NextIsFree` says when it cannot be.
- BookLaws.RunKeeps: runs of the five operations it names; a plain addOrder may cross the book, and `BookLaws.AddKeeps` says exactly when.
- Bitmaps.HighestSetBit: words are 64 booleans, so clz and ctz are the scans of those bits.
- The duplicated buy and sell branches of the order book are one branch over the side.
- Share totals, counters and sums are natural numbers: machine overflow is not modelled.
- Chunks of the pool are not freed or counted; slots are numbers instead of addresses.
- getSpread, printBook and the price printing functions: display.
- Ipv4Parsers.Ipv4Sound: headers of three words or more, or packets within one beat; below that the decision is no function of the packet, and `Ipv4Parsers.ShortHeaderDecision` and `Ipv4Parsers.ShortHeaderAfter` say what it is.
- Ipv4Parsers.Ipv4AgreesIff: the same scope; `Ipv4Parsers.ShortHeaderAgreesIff` is the condition outside it.
- FeedLaws.MixedTraffic: the one misread variant of `FeedLaws.FramedAgreedIff` is not among the datagrams; `FeedLaws.MisreadIsHarmless` is about one such frame, not about a run.
- FeedTops.FrontEndContract: the source offers packed beats (full but for the last of a frame), as the test benches do; the gearbox alone is proved for every keep mask.
- MoldParsers.SeqGapMeansLoss: fewer than 2^64 messages in the stream, so that numbers do not come round.
- MoldStreams.GapIffWithheld: fewer than 2^64 messages, and no packet of 65535 messages, whose count is the marker's.
- FrameBuild.Packetize: the random group sizes are a parameter.
- Reset is modelled as the initial state; it is not asserted in the middle of a run.
- ItchDecode.ParseBuffer: the trimmed copy of the stock symbol is not modelled, the raw eight bytes are.
- axis_reg.v, the skid buffer, is not part of this model.
- SpscRings.FifoWithoutRaces: steps are sequentially consistent, with loads of the other side's index as stale as an acquire load allows; the rest of the C++ memory model is not modelled.
- BookViews.ReadsAreViews: steps are sequentially consistent; the fences of the C++ memory model are not modelled.
- Pipelines.NothingIsLost: the drop counter rises in the step in which the push is refused, and an event is folded in in the step in which its pop returns.
- Histograms.LatencyHistogram.Percentile: the integer rank is the argument; the ceiling of a floating-point percentage is not modelled.
- Time stamps of events, tick-to-nanosecond conversion, rates, alerts, the trade tape, console and JSON output, sockets and the dashboard.
