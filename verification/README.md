# A verified model of chirouter and of the POX code around it

This project models, in Dafny 4.11, five parts of the repository and proves what they are for.
`dafny verify dfyconfig.toml` checks all of it.

* **Paths** (`PathSpec`, `FloydWarshall`, `MultiPath`): the all-pairs shortest paths of the POX
  component `l2_multi`, computed in place, rebuilt from recorded intermediates, and cached
  between link events.
* **Lists** (`SimCEntry`, `SortSpec`, `SimCSort`, `SimCList`; `MergeSpec`, `UtList`): the SimCList
  linked list with its `mid` pointer and its node-swapping quicksort, and the `utlist.h` macros.
  Both are classes over heap nodes with a ghost sequence.
* **Router** (`Checksum`, `LongestMatch`, `Packets`, `RouterSpec`, `RouterProofs`, `RouterRuns`,
  `RouterFates`, `RouterOutcomes`, `RouterResolution`, `Router`, `ArpInterleaving`, `ArpRuns`,
  `MixedFates`, `MixedOutcomes`): checksum, longest match and TTL, and the ARP state machine as a
  transition system whose output is a trace. `RouterOutcomes` says exactly what becomes of each
  frame and of each round, `RouterResolution` what that means for a neighbour and for later
  datagrams. `Router.Context` is the same system as an object that is changed in place.
  `ArpInterleaving` drops the atomicity of the handler: rounds of the ARP thread may fall wherever
  the handler is without the lock. `ArpRuns`, `MixedFates` and `MixedOutcomes` have the results
  about these mixed runs.
* **NAT** (`NatSpec`, `NatProofs`, `NatOutcomes`, `Nat`): the port allocator, the two dictionaries
  of flow records, their expiry, the flow entries that rewrite packets, and what each packet
  makes of them.
* **Configuration and text** (`Messages`, `ConfigSpec`, `ConfigProofs`, `ConfigRuns`,
  `ConfigSequences`, `ConfigClient`, `ConfigServer`, `Deframer`; `Text`, `Ipv6`, `Ipv6Text`,
  `Ipv6Net`): the messages between controller and
  router process, the client that sends a topology, the server that rebuilds it, the client's
  stream decoder, and the text form of IPv6 addresses.

## What the model assumes

* The run length of `DL_SORT` does not overflow. SimCList comparators are total preorders. The float ratio at `src/c/simclist.c:441` is exact,
  which holds for lists of at most 2^24 elements. The product of a comparator's result and
  `versus` does not overflow. Allocation succeeds.
* IPv4 frames have a 20-byte header, a total length that fits the frame, at least eight bytes
  after the header, and an ICMP header where the protocol says ICMP. Route masks are contiguous
  (`LongestMatch.MaskOrder` says where this is used).
* In `RouterSpec` a frame and a tick are atomic. `ArpInterleaving` shows which guarantees do not
  depend on this, and the one that does.
* Frames that arrive are told apart by an identifier. Time, random numbers and the set of
  discovered links are inputs; sending is appending to a trace.
* A `Switch` object of `l2_multi` is its dpid, and nested default dictionaries are maps on pairs.
  The order in which a dictionary or a set is walked is arbitrary. A switch that joins does not
  clear the path cache (`lib/pox/pox/forwarding/l2_multi.py:486-494`), so its own diagonal cell is
  missing until the next link event; no query reads that cell.
* The NAT's clock does not go back, and its configuration stays the same. The switch prefers an
  exact match (section 3.4 of the OpenFlow 1.0 specification), holds an entry until its hard
  timeout, and holds a drop entry for at least its idle second; how much longer, up to ten
  seconds, is left open.

## What does not hold

* **NAT without ports** (`lib/pox/pox/misc/nat.py:159-171`, `249-311`). When `_pick_port` finds
  none, a record whose port is None enters both dictionaries. `NatProofs.NewFlowKeeps` proves that
  the index stays whole exactly if a port was found, `NatProofs.PickFails` says when none is,
  `NatProofs.PortsRunOut` gives a reachable state in which none is, and
  `Nat.Translator.ExpireRecords` shows that such a record later makes `_expire` fail.
* **An answer dropped** (`lib/pox/pox/misc/nat.py:235-245`). An inbound packet without a record
  leaves an entry without actions, whose exact match comes before every record's entries. If a
  flow is opened while it stands, an answer with the same headers is lost.
  `NatProofs.AnswerReaches` proves that this is the only case, and `NatProofs.AnswerLost` is a run
  of it.
* **A host that moves** (`lib/pox/pox/misc/nat.py:231-322`). Records are found without the input
  port, but the outbound entry has one. A packet of a known flow by another port refreshes the
  record and sends both entries again, and is still accepted by none of them
  (`NatOutcomes.MovedHost`); `NatOutcomes.HostMoves` is a run. `NatOutcomes.EveryPacket` proves
  that the entry accepts the packet exactly if it came by the port that opened the flow.
* **A renewed address** (`src/c/arp.c:204-220`). A reply for an address whose entry is still valid
  takes another slot, and lookups find the first one. `RouterResolution.RenewedAddress` proves that
  the new address is used exactly if its slot is before the old one, and
  `RouterResolution.SecondReplyUnused` that of the first two replies the second is not.
* **A frame lost between lookup and use** (`src/c/router.c:386-388`, `408-421`). If the request
  found by the handler gives up before the frame is added to it, the frame is gone.
  `ArpInterleaving.JoinsInTime` gives the exact condition, `ArpRuns.LateFrameLost` the
  number of rounds, and `ArpRuns.FrameLost` a run from the start.
* **Subtypes** (`src/python/chirouter/client.py:20-22`, `src/c/server.h:306-311`). The two sides
  number FROM_ROUTER and TO_ROUTER the other way round, so the client decodes every frame of the
  server as one to a router (`Messages.FrameReadBack`). Identifiers and bytes are not affected.
* **Padded echo requests** (`src/c/router.c:195-199`, `232-239`). An echo reply is as long as the frame, so
  its IP total length is right exactly if the request carried no Ethernet padding
  (`Packets.IcmpFacts`); `Packets.PaddedReply` is a case where it is wrong.
* **Checksum length**: the 32-bit accumulator is exact up to 131074 bytes and not beyond
  (`Checksum.MaxBlockIsSharp`).
* **END CONFIG before HELLO** (`src/c/server.c:516-550`; `src/c/server.h:211-236` describes the
  order). END CONFIG is checked against the counts only, so it is accepted as the very first
  message (`ConfigRuns.EndConfigFirst`). `ConfigRuns.GreetedUnlessEnded` proves that this is the
  only way past the HELLO: of the sequences a new server accepts, exactly those that do not begin
  with END CONFIG contain a HELLO, and they begin with it.
* **Routes are not counted** (`src/c/server.c:516-550`). END CONFIG compares routers and
  interfaces with what was announced, as `ConfigRuns.RunningIsComplete` proves, but not routes:
  `ConfigRuns.RouteMissing` ends in RUNNING without an announced route.
  `ConfigSequences.RoutesComplete` says that a router has all its routes exactly if as many route
  messages were sent for it as it announced.
* **Frames for unknown interfaces** (`src/c/server.c:551-571`). `src/c/server.h:234-236` asks the
  server to drop them; the code returns -1 and closes the connection.
  `ConfigRuns.FrameNeedsInterface` gives the condition, `ConfigRuns.FrameRefused` a case.
* **Short IPv6 texts** (`lib/pox/pox/lib/addresses.py:397-417`). A text without a double colon
  need not have eight groups: "1:2:3" is read as 1:2:3:0:0:0:0:0 (`Ipv6.ThreeGroups`).
  `Ipv6.PlainText` proves that it is accepted exactly with three to eight groups, those that are
  missing being zeros on the right, and `Ipv6.Accepted` says which texts are accepted at all.

## Model

| member | source | states |
|---|---|---|
| FloydWarshall.CalcPaths | lib/pox/pox/forwarding/l2_multi.py:67-103 | The in-place computation is exact for every graph and every order of the switches: a cell holds the minimum hop count, none exists without a path, and every intermediate splits its distance into two positive parts |
| FloydWarshall.RelaxThrough | lib/pox/pox/forwarding/l2_multi.py:91-100 | One phase keeps every cell sound and never raises one, and leaves every pair relaxed through k although cells are overwritten while being read |
| FloydWarshall.PhaseOptimal | lib/pox/pox/forwarding/l2_multi.py:91-100 | After the phase for k no path through the switches so far and k beats the map |
| FloydWarshall.LastPhase | lib/pox/pox/forwarding/l2_multi.py:91-100 | After the last phase the inequalities kept for intermediates are equalities of shortest distances |
| MultiPath.RunKeepsInv | lib/pox/pox/forwarding/l2_multi.py:430-494 | In every run of link-ups, link-downs, joins and queries links stay two-way and the cache is empty or exact for the current links |
| MultiPath.StepKeepsInv | lib/pox/pox/forwarding/l2_multi.py:430-494 | The same for one event, whichever replacement link is picked |
| MultiPath.L2Multi.LinkEvent | lib/pox/pox/forwarding/l2_multi.py:430-484 | A link event between known switches clears the cache; a new two-way link is recorded with each switch's own port if its ends were not connected; after a removal the ends are connected exactly if some discovered two-way link joins them, with the ports of such a link; nothing else changes, and an unknown switch fails |
| MultiPath.EveryLinkEvent | lib/pox/pox/forwarding/l2_multi.py:430-484 | Every transition for a link event has that outcome, whichever replacement link is picked |
| MultiPath.RunPortsSeen | lib/pox/pox/forwarding/l2_multi.py:430-484 | In every run both ports recorded for a pair of switches are those of one link that the run reported or found discovered, in both directions |
| MultiPath.HopsAreLinks | lib/pox/pox/forwarding/l2_multi.py:138-161 | On the paths that are given, what leaves a switch by a hop's port arrives at the next hop's port by such a link |
| MultiPath.L2Multi.ConnectionUp | lib/pox/pox/forwarding/l2_multi.py:486-494 | A join keeps the invariant although it keeps the cache |
| MultiPath.L2Multi.GetRawPath | lib/pox/pox/forwarding/l2_multi.py:106-121 | The recursion ends and gives the inner switches of a shortest path, and None exactly if there is no path |
| MultiPath.L2Multi.GetPath | lib/pox/pox/forwarding/l2_multi.py:138-161 | None exactly for unreachable pairs; otherwise a shortest path whose ports belong to its links, so the closing assertion never fails |
| MultiPath.Cook | lib/pox/pox/forwarding/l2_multi.py:150-159 | Adding ports keeps the switches and makes a path that `_check_path` accepts |
| SimCList.List.FindPos | src/c/simclist.c:433-457 | All four walks give the entry at the position, sentinels included, and NULL outside -1..numels |
| SimCList.List.InsertAt | src/c/simclist.c:477-524 | The plain sequence insertion, with `mid`, links and spares as they should be; -1 exactly while iterating or out of range |
| SimCList.List.ExtractAt | src/c/simclist.c:459-475 | Gives the data at the position and removes just that element, or NULL and no change |
| SimCList.List.DeleteAt | src/c/simclist.c:542-558 | Removes just that element, or -1 and no change |
| SimCList.List.DropElem | src/c/simclist.c:1388-1414 | Unlinking an entry leaves `mid` at the new middle for both parities and keeps at most five spares, none of them in the list |
| SimCList.List.DeleteRange | src/c/simclist.c:560-621 | Removes just the range and says how many elements that were, or -1 and no change |
| SimCList.List.MoveMid | src/c/simclist.c:574-586 | The walk of `mid` ends at the entry that will be in the middle |
| SimCList.List.Clear | src/c/simclist.c:623-667 | Empties the list and says how many elements there were; the first entries join the spares, as many as there is room for |
| SimCList.List.Concat | src/c/simclist.c:713-764 | The destination holds copies of both lists in order, with `mid` found from the end of the first; the sources are unchanged; -1 if a source is the destination |
| SimCList.List.MidAfterConcat | src/c/simclist.c:751-760 | The correction of `mid` with C's truncating division ends in the middle for all lengths |
| SimCList.List.RepOk | src/c/simclist.c:1485-1515 | On any list, valid or not, the authors' own check accepts exactly if some chain of entries, linked both ways from sentinel to sentinel, has the length, the middle and the ends that the fields say |
| SimCList.List.ValidRepresents | src/c/simclist.c:1485-1515 | Every list the operations produce is such a list |
| SimCList.List.Sort | src/c/simclist.c:766-783 | The data are a permutation in the order of the comparator and the sign of `versus`; links, `mid` and `numels` are untouched |
| SimCSort.QuickSort | src/c/simclist.c:815-936 | The same for a range of entries, for every pivot the random choice can make |
| SimCSort.Partition | src/c/simclist.c:852-901 | Main loop and both clean-up loops leave a permutation with nothing larger before the pivot and nothing smaller after it |
| SimCSort.CloseIn | src/c/simclist.c:852-869 | The cursors meet the pivot with both sides in order |
| SimCSort.CleanLeft | src/c/simclist.c:871-884 | The one-sided clean-up left of the pivot |
| SimCSort.CleanRight | src/c/simclist.c:885-901 | The one-sided clean-up right of the pivot |
| SimCSort.SelectionSort | src/c/simclist.c:794-813 | The sort of short ranges |
| SortSpec.PartitionedAfterPerm | src/c/simclist.c:904-935 | Rearranging one side of a partition, as a recursive call does, keeps it a partition |
| SortSpec.JoinSorted | src/c/simclist.c:904-935 | Two sorted sides of a partition are one sorted range |
| UtList.Append | src/c/utlist.h:639-651 | Appends to a well formed list: links both ways, head's `prev` at the tail, NULL at the end |
| UtList.Delete | src/c/utlist.h:706-723 | Deletes one element, head, inner or tail, and leaves its own `next` for the iteration |
| UtList.DeleteEach | src/c/utlist.h:744-745 | Safe iteration that deletes every element visits each once and ends with the empty list |
| UtList.Sort | src/c/utlist.h:175-233 | Ends with the same elements sorted, equal ones in their old order, and a well formed list |
| UtList.SortPass | src/c/utlist.h:187-230 | One pass merges neighbouring runs pair by pair and relinks the list |
| MergeSpec.MergeOrdered | src/c/utlist.h:201-222 | Merging two ordered runs gives an ordered run and is stable |
| MergeSpec.PassRuns | src/c/utlist.h:187-230 | A pass over runs of width w leaves runs of width 2w |
| Checksum.Cksum | src/c/utils.c:64-87 | The 32-bit loops compute the complement of the one's complement sum in network order, with 0xffff for zero, and the fold ends |
| Checksum.MaxBlockIsSharp | src/c/utils.c:64-87 | The accumulator cannot overflow for blocks of at most n bytes if and only if n is at most 131074 |
| Checksum.StoredChecksumVerifies | src/c/utils.c:64-87 | A block whose zeroed even-offset field received the result sums to all ones, and `cksum` of it is 0xffff |
| LongestMatch.GetMatchingEntry | src/c/router.c:88-119 | For any masks: nothing exactly if no entry matches, otherwise the first matching entry whose mask, as stored, is largest |
| LongestMatch.BestIsLongest | src/c/router.c:88-119 | That entry matches with the longest prefix and is the earliest such, although masks are compared in network order on a little-endian host |
| LongestMatch.MaskOrder | src/c/router.c:102-106 | For contiguous masks the numeric order of the swapped values is the order of prefix lengths |
| LongestMatch.MatchIsPrefix | src/c/router.c:98 | The masked comparison says that destination and entry agree on the first bits |
| Packets.NetworkOrder | src/c/router.c:98-106 | The swapped value of a loaded address is the number of its bytes in network order |
| Packets.FillForward | src/c/router.c:126-157 | The buffer filled by copies and field writes is the forwarded frame |
| Packets.ForwardedByte | src/c/router.c:126-157 | Every byte of the datagram but TTL and checksum is carried over |
| Packets.ForwardedFacts | src/c/router.c:126-157 | New hardware addresses, one hop less to live (0 wraps to 255), every other byte as it was, zeros behind the datagram, and a header that verifies |
| Packets.HopBound | src/c/router.c:145-155 | A datagram of TTL t is forwarded at most t - 1 times through any chain of these routers |
| Packets.IcmpFacts | src/c/router.c:186-272 | Every ICMP frame has an IP header of version 4 without options and a message that both verify, and goes back to the sender; an error quotes the IP header and eight bytes, an echo reply repeats the request's data; the length field is right exactly without padding |
| Packets.PaddedReply | src/c/router.c:195-239 | A padded request whose reply has the wrong length |
| RouterProofs.StepKeeps | src/c/router.c:309-513 | Every step keeps the ledger of withheld datagrams, distinct requests, true counts and safe outputs |
| RouterProofs.TickSplits | src/c/arp.c:152-181 | A tick turns what waits for an address into outcomes or leaves it waiting, in order |
| RouterProofs.SettleKeeps | src/c/router.c:473-513 | Settling a whole request keeps the ledger of withheld datagrams and the rest of the invariant |
| RouterRuns.Conservation | src/c/router.c:377-421 | In every run a withheld datagram is in exactly one request or has exactly one outcome, which is a forward, Time Exceeded for a last hop or Host Unreachable; the outcomes for a next hop come in arrival order |
| RouterFates.EveryDatagramOnce | src/c/router.c:309-513 | In every run each datagram that came in was answered or forwarded at once, or has one outcome after waiting, or still waits, exactly one of these, and none if it is ignored |
| RouterRuns.ForwardedRightly | src/c/router.c:369-438 | A forwarded datagram leaves on the interface of its earliest longest match, for a hardware address in the log of ARP replies for that route's next hop |
| RouterFates.ReportsCome | src/c/router.c:454-470 | Every address in that log came with an ARP reply of the run, addressed to the interface it came in on |
| RouterFates.ForwardedAsReported | src/c/router.c:369-503 | Next-hop safety of whole runs, in terms of the frames that came in |
| RouterRuns.NothingRefused | src/c/server.c:694-720 | No frame sent for a datagram is refused for its length or its source address |
| RouterRuns.OneFate | src/c/router.c:309-440 | A datagram is answered, withheld or ignored, never two of these, and only for the reasons named |
| RouterOutcomes.EveryFrame | src/c/router.c:309-535 | Every inbound frame in every state has exactly the outcome of its kind: datagram, reply, or other |
| RouterOutcomes.EveryDatagram | src/c/router.c:319-448 | A datagram for the receiving interface is answered by protocol, TTL and ICMP type; for another interface with Host Unreachable; without a route with Net Unreachable; with the best route k and a cached next hop it leaves on k's interface for that address, or with Time Exceeded if the TTL is 1; else it joins the request for the next hop or opens one; nothing else changes |
| RouterOutcomes.LongestIsLargest | src/c/router.c:88-119 | The best route, the first matching one of largest mask, is for contiguous masks the earliest of the longest matching prefixes |
| RouterOutcomes.EveryReply | src/c/router.c:454-513 | A reply is cached in the first free slot, everything that waited for its address leaves in order, each on its best route's interface for the new address or with Time Exceeded, the request is gone and the others stay; without a free slot the router stops |
| RouterOutcomes.EveryOtherFrame | src/c/router.c:450-535 | An ARP request for the receiving interface is answered to its sender; other ARP messages and other frames change nothing |
| RouterOutcomes.EveryRound | src/c/arp.c:291-330 | A round makes exactly the entries older than fifteen seconds invalid and, request by request in order, sends again what was sent fewer than five times and answers with Host Unreachable what waited in the others, which are gone |
| RouterResolution.ArpFields | src/c/arp.c:85-130 | In the bytes of an ARP message the receiver reads the fields that the sender wrote |
| RouterResolution.NeighbourAnswers | src/c/router.c:450-535 | Two routers on one link: the request of one is answered by the other, and the answer releases what waited for it, addressed to the other's hardware address |
| RouterResolution.AnsweredRun | src/c/router.c:454-513 | After an answer, in any run, nothing waits for its address: every datagram ever withheld for it has its outcome |
| RouterResolution.EntryLives | src/c/arp.c:296-309 | A cached address stays, the first for its address, as long as no round comes later than fifteen seconds and no other reply for it |
| RouterResolution.ForwardedOnceKnown | src/c/router.c:369-513 | From an answer to the wire: for those fifteen seconds a datagram whose best route goes by that address is forwarded at once, to the reported hardware address |
| RouterResolution.RenewedAddress | src/c/arp.c:189-220 | A second entry for an address is found exactly if its slot is before the first one's |
| RouterResolution.SecondReplyUnused | src/c/arp.c:189-220 | Of two replies that come first to a router, the second is not used |
| RouterRuns.RequestLives | src/c/arp.c:152-181 | While no answer comes a request is sent once per tick |
| RouterRuns.RequestDies | src/c/arp.c:312-326 | A request that nobody answers is pending through four ticks and gone at the fifth |
| RouterRuns.HeldDistinct | src/c/router.c:402-421 | No frame is withheld twice |
| Router.Context.ProcessFrame | src/c/router.c:309-535 | The handler on the object gives every frame exactly its outcome, makes the step of the transition system and keeps its invariant |
| Router.Context.ArpRound | src/c/arp.c:291-330 | The round of the ARP thread on the object purges, sends again and gives up exactly as it should, and makes the tick |
| Router.Context.ProcessAllPending | src/c/arp.c:312-326 | The safe iteration over the requests sends and keeps what the tick says |
| Router.Context.LookupCache | src/c/arp.c:189-200 | The first valid entry for the address, or nothing |
| Router.Context.AddToCache | src/c/arp.c:204-220 | Fills the first free entry, or says that there is none |
| Router.Context.LookupPending | src/c/arp.c:224-236 | The first request for the address, or nothing |
| Router.Context.AddFrame | src/c/router.c:383-421 | Joins the pending request, or opens one with its first ARP request sent |
| Router.Context.ReleaseFrames | src/c/router.c:482-503 | Each withheld frame is forwarded, or answered with Time Exceeded, in order |
| ArpInterleaving.NextKeeps | src/c/router.c:377-421 | Every locked section and every round in between keeps the whole invariant of the atomic router |
| ArpInterleaving.PendingDistinct | src/c/router.c:380-406 | In every state of every mixed run pending addresses are distinct, and each request was sent one to five times, the number of its ARP requests on the wire |
| ArpInterleaving.JoinsInTime | src/c/router.c:408-421 | The frame joins the very request that was found if and only if that was sent, with the rounds since, at most five times |
| ArpRuns.LateFrameLost | src/c/router.c:386-421 | From every state where a request was just found, enough rounds lose the frame |
| ArpRuns.SecondLost | src/c/router.c:386-421 | From the start, for any two routed frames for one next hop: the handler is done with the second, which is neither withheld nor answered |
| ArpRuns.FrameLost | src/c/router.c:386-421 | Such a run exists |
| ArpRuns.RequestAges | src/c/arp.c:312-326 | In mixed runs an unanswered request was sent once more with each round, is pending up to five, and is gone with the next round |
| ArpInterleaving.Uninterrupted | src/c/router.c:369-513 | Without a round in between the sections add up to the atomic step |
| MixedFates.MixedReportsCome | src/c/router.c:454-470 | In mixed runs too, every logged address came with an ARP reply of the run |
| MixedFates.MixedForwardedAsReported | src/c/router.c:369-503 | Next-hop safety of every mixed run, in terms of the frames that came in |
| MixedFates.MixedEveryDatagramOnce | src/c/router.c:369-503 | In every mixed run, each time a datagram was taken up it was answered at once, or has one outcome after waiting, or still waits, or is in the handler's hands, or was lost between lookup and addition; exactly one of these |
| MixedOutcomes.DoneAtOnce | src/c/router.c:319-535 | What needs no next hop and is no reply is dealt with in one section, as in the atomic step |
| MixedOutcomes.ForwardedInTwoSections | src/c/router.c:377-437 | A datagram whose next hop is cached when it comes leaves on its best route's interface for the cached address, or expires, however many rounds pass in between |
| MixedOutcomes.WaitsInThreeSections | src/c/router.c:377-421 | One whose next hop is not cached joins the request that is pending when it is added, or opens one, exactly unless the request it found has given up since |
| MixedOutcomes.ReleasedInTwoSections | src/c/router.c:454-513 | A reply with rounds before its second section: the address is cached, all that still waits leaves in order, and every datagram ever withheld for it has its outcome |
| NatProofs.StepKeeps | lib/pox/pox/misc/nat.py:120-308 | A step keeps the index whole, that is, same records in both dictionaries, used ports those of the records, no port shared, exactly if it finds the port it needs |
| NatProofs.RunKeeps | lib/pox/pox/misc/nat.py:120-308 | The same in every run while ports remain |
| NatProofs.NewFlowKeeps | lib/pox/pox/misc/nat.py:249-308 | For a new flow: whole if and only if the allocator found a port |
| NatProofs.PurgeKeeps | lib/pox/pox/misc/nat.py:120-130 | Expiry keeps the index whole |
| NatProofs.PurgeExact | lib/pox/pox/misc/nat.py:120-130 | Expiry removes exactly the records past their time from both dictionaries; the ports in use are then those of the records that stay |
| NatProofs.PickFails | lib/pox/pox/misc/nat.py:144-171 | No port exactly if the whole dynamic range, and all from the start up, are taken; the start is the flow's own port or, below 1024, a random one |
| NatProofs.PicksFirst | lib/pox/pox/misc/nat.py:144-171 | The port given is free and the first that is, from the start up and then from the bottom of the dynamic range |
| NatProofs.PortsRunOut | lib/pox/pox/misc/nat.py:159-171 | A reachable state with all ports taken, from which a step breaks the index |
| NatProofs.Transparent | lib/pox/pox/misc/nat.py:249-308 | The answer to a rewritten packet is accepted by that record's inbound entry and by no other entry of a record, is found by the controller's lookup, and becomes the answer to the original packet |
| NatProofs.SwitchSendsOut | lib/pox/pox/misc/nat.py:288-323 | With the entries in the switch the original packet leaves disguised, whatever else the switch holds |
| NatProofs.AnswerReaches | lib/pox/pox/misc/nat.py:235-323 | Its answer reaches the host if and only if the switch holds no drop entry with the same headers; otherwise it is lost |
| NatProofs.AnswerLost | lib/pox/pox/misc/nat.py:235-245 | A run that loses an answer in this way |
| NatProofs.OutboundSends | lib/pox/pox/misc/nat.py:288-304 | The outbound entry sends just the packet with the outside address, to the gateway |
| NatProofs.InboundRestores | lib/pox/pox/misc/nat.py:256-286 | The inbound entry accepts the answer and undoes the outbound rewrite, with or without a new port and the DNS rewrite |
| NatProofs.ActiveIsRecorded | lib/pox/pox/misc/nat.py:256-323 | An entry whose hard timeout has not passed belongs to a record that is still known |
| NatOutcomes.EveryPacket | lib/pox/pox/misc/nat.py:197-327 | Every packet in every state: left alone; from outside, the record whose entry accepts it is refreshed for ten minutes and its entries sent, or a drop entry is left; from inside, the same for a recorded flow, and for a new one a record with the current gateway and a port that was free, whose entry accepts the packet |
| NatOutcomes.EverySent | lib/pox/pox/misc/nat.py:203-323 | What is sent: an ARP request without a gateway, the entry that ignores a stranger, or both entries of the record, that of the packet's own direction last and accepting the packet |
| NatOutcomes.FlowServes | lib/pox/pox/misc/nat.py:249-323 | For sixty seconds after a packet from inside, in every run in which ports remain: each packet with its headers leaves disguised by the switch alone and its answer comes back, unless a drop entry has the answer's headers |
| NatOutcomes.MovedHost | lib/pox/pox/misc/nat.py:231-322 | A known flow by another port is refreshed, and no entry accepts the packet |
| NatOutcomes.HostMoves | lib/pox/pox/misc/nat.py:231-322 | Such a run |
| Nat.Translator.PickPort | lib/pox/pox/misc/nat.py:144-171 | The two-cycle search ends with the first free port in its order, which it marks as used |
| Nat.Translator.HandlePacket | lib/pox/pox/misc/nat.py:197-327 | The handler on shared record objects gives every packet exactly its outcome and sends exactly what it should; the index stays whole exactly if a needed port was found |
| Nat.Translator.LearnGateway | lib/pox/pox/misc/nat.py:364-369 | The gateway may change at any time; records keep the one they were made with |
| Nat.Translator.ExpireRecords | lib/pox/pox/misc/nat.py:120-130 | On a whole index the deletions never fail and remove exactly the expired records; an expired record without a port makes them fail |
| Messages.ReadPacked | src/python/chirouter/client.py:44-167 | The server reads exactly the message that was packed, whatever its buffer held before |
| Messages.OnTheWire | src/python/chirouter/client.py:44-167 | The bytes of every message: type, subtype, payload length in network order, and each field at its place |
| Messages.FrameReadBack | src/python/chirouter/client.py:163-175 | A frame of the server is read back with its identifiers and bytes, whatever follows it, and as one to the router |
| ConfigProofs.ConfigurationAccepted | src/c/server.c:347-550 | A waiting server accepts everything `connect` sends for any topology within the field limits and then runs it |
| ConfigProofs.Framed | src/python/chirouter/client.py:192-256 | What `connect` sends begins with HELLO and the number of routers and ends with END CONFIG |
| ConfigProofs.Configured | src/python/chirouter/client.py:192-256 | The same through the bytes of the messages, whatever the buffer held before |
| ConfigProofs.ShortMessages | src/python/chirouter/client.py:192-256 | All messages of the exchange fit their fields and the buffer |
| ConfigRuns.EndConfigFirst | src/c/server.c:516-550 | END CONFIG as the first message makes an empty server run |
| ConfigRuns.GreetedUnlessEnded | src/c/server.c:347-550 | Of all sequences a new server accepts, those with a HELLO are exactly those that do not begin with END CONFIG |
| ConfigRuns.RunningIsComplete | src/c/server.c:347-550 | After any accepted sequence identifiers are consecutive, routes point at interfaces and do not exceed what was announced; a RUNNING server has the routers and interfaces that were announced |
| ConfigSequences.AcceptedSequence | src/c/server.c:347-590 | For all sequences: each message is accepted if and only if it may follow those before it, in terms of what was sent since the routers were last announced, and the server then holds exactly the routers, interfaces and routes that the messages said |
| ConfigSequences.RoutesComplete | src/c/server.c:474-514 | A router has all its routes exactly if as many were sent for it as it announced |
| ConfigRuns.FrameNeedsInterface | src/c/server.c:551-587 | After any sequence that ends in RUNNING a frame is taken exactly for an interface the server has |
| ConfigRuns.FrameRefused | src/c/server.c:551-571 | A frame that makes a running server give up |
| ConfigRuns.RouteMissing | src/c/server.c:516-550 | A sequence that ends in RUNNING with a route missing |
| ConfigProofs.ImageFaithful | src/python/chirouter/client.py:205-247 | The server has the same routers, the interfaces sorted by name with their addresses (zeros for a missing hardware address), and route entries that point at the interface they name |
| ConfigProofs.RoomThroughout | src/c/server.c:400-514 | At no point of the exchange more is stored than was announced and allocated |
| ConfigProofs.OneListing | src/python/chirouter/client.py:216 | The sorted order of the names is unique |
| ConfigServer.ServerContext.ProcessSingleMessage | src/c/server.c:347-590 | The dispatcher on the object and the message buffer: 0 and the next state, or -1 and no change; a HELLO, when it is waited for, is answered with a HELLO, and nothing else is |
| ConfigClient.Client.Connect | src/python/chirouter/client.py:192-256 | Sends exactly that configuration and leaves dictionaries of interfaces that undo each other |
| ConfigClient.FramesResolve | src/c/server.c:724-730 | The identifiers on a frame out of any interface of the server resolve to that interface in the client's dictionaries |
| ConfigClient.Sorted | src/python/chirouter/client.py:216 | Every key once, in increasing order |
| Deframer.Receiver.Receive | src/python/chirouter/client.py:261-290 | The messages completed by a chunk are those of the whole stream so far, whatever the chunks; the generator ends exactly if a message outgrows the buffer or is a frame of unknown subtype, having delivered the messages before |
| Deframer.SplitJoin | src/python/chirouter/client.py:261-290 | Messages sent one after the other are found again, and nothing is left over |
| Deframer.FramesArrive | src/python/chirouter/client.py:261-290 | A stream of the server's frames gives the same frames in order |
| Ipv6.RoundTrip | lib/pox/pox/lib/addresses.py:380-437 | Parsing the text of any address, in every format, gives the address back |
| Ipv6.ElidesLeftmostLongest | lib/pox/pox/lib/addresses.py:605-627 | What is left out is the leftmost of the longest runs of zeros and at least two groups long (sections 4.2.2 and 4.2.3 of RFC 5952) |
| Ipv6.ToStr | lib/pox/pox/lib/addresses.py:583-627 | The loop over zero runs and the choice among them give the text that `Ipv6Text` determines |
| Ipv6Text.Printed | lib/pox/pox/lib/addresses.py:583-627 | The text in every format: groups in lower-case digits, without leading zeros or four each, the leftmost longest run of two zeros or more left out, the last two groups as decimal bytes if asked for or, by default, exactly in ::ffff:0:0/96 (section 4 of RFC 5952) |
| Ipv6Text.OneText | lib/pox/pox/lib/addresses.py:583-627 | There is no other text of that form |
| Ipv6Text.SpelledOnce | lib/pox/pox/lib/addresses.py:597-603 | A group has one such spelling |
| Ipv6.LongestIsBest | lib/pox/pox/lib/addresses.py:618-625 | The longest listed run is the longest there is, and the first of its length |
| Ipv6.Construct | lib/pox/pox/lib/addresses.py:388-437 | The constructor accepts and refuses texts as the parsing function does |
| Ipv6.Accepted | lib/pox/pox/lib/addresses.py:397-417 | Which texts without dots are accepted, for all texts |
| Ipv6Text.TwoCounted | lib/pox/pox/lib/addresses.py:397-401 | The test for double colons refuses a text exactly if two of them do not overlap |
| Ipv6Text.AcceptedMixed | lib/pox/pox/lib/addresses.py:390-437 | Which texts with dots are accepted, and what they mean |
| Ipv6.PlainText | lib/pox/pox/lib/addresses.py:397-417 | A text without an empty segment is accepted exactly with three to eight groups and is filled up with zeros on the right |
| Ipv6.ThreeGroups | lib/pox/pox/lib/addresses.py:397-417 | A text with three groups that is accepted |
| Ipv6Net.SamePrefix | lib/pox/pox/lib/addresses.py:526-581 | Membership in a network that `parse_cidr` accepts is equality of prefixes |
| Ipv6Net.HostBitsMatchNothing | lib/pox/pox/lib/addresses.py:533-581 | A network with host bits set is refused by `parse_cidr`; where they are allowed, it contains nothing |
| Ipv6Net.MappedIsNetwork | lib/pox/pox/lib/addresses.py:488-489 | The test that chooses the IPv4 form is membership in ::ffff:0:0/96 |

## Left out

- Router.Context: pending requests and withheld frames are sequences; their links are the lists of `UtList`, and freeing memory is not modelled.
- ArpInterleaving.JoinsInTime: adding to a request that is gone is modelled as losing the frame; what the C code does to the freed memory is not.
- SimCList.List.Concat: the destination takes new entries and its old ones are abandoned; `list_init` on it and memory are not modelled.
- SimCList.List.ExtractAt: the entry it returns to the spares keeps its data pointer, which the C code sets to NULL; nothing reads it. List elements are pointers, so `copy_data` mode is left out.
- SimCList.List.RepOk: the check of the argument itself for NULL, and sentinels that are NULL.
- SimCSort.QuickSort: the two halves are sorted one after the other; the variant with threads sorts them at the same time.
- SimCSort.CleanLeft: a `break` that is taken when the cursors meet is modelled by the guard of the loop, which says the same.
- LongestMatch.BestIsLongest: for contiguous masks only; for others the code compares the swapped masks as numbers, which `LongestMatch.GetMatchingEntry` states.
- RouterRuns.Conservation: until the router stops on a full cache; for atomic steps, with the interleaved form in `MixedFates`.
- Packets.HopBound: for a TTL of at least 1; a TTL of 0 wraps to 255, as in the code.
- Deframer.Receiver.Receive: `connect` reads the server's HELLO with a generator of its own, whose leftover bytes are lost; one generator is modelled here.
- Ipv6.Construct: numbers are plain digits; Python also accepts signs, blanks and a prefix. `inet_aton` also accepts short, octal and hexadecimal quads. Both are refused here.
- Nat.Translator.HandlePacket: whether an address is local is a parameter, and packets are TCP or UDP over IPv4; the two entries of the start, what the switch does with the packet that is handed back with an entry, and the packing of entries are left out.
- ConfigServer.ServerContext.ProcessSingleMessage: a ROUTER or INTERFACE message too short for its fixed fields, for which the C code computes a negative name length, is not modelled, nor that a name longer than its array leaves it. The threads, the capture file and the handling of a frame that RUNNING starts are left out; sending the reply is assumed to succeed.
- Ethernet types other than IP and ARP: the C handler falls off its end; the model does nothing and returns 0.
- Logging, sockets, `recv` framing of the server, pcap files, sleeping and the clock itself.
- Flow entries, path setup and flooding of `l2_multi`, holding down, and the clearing of flows after a link event.
- SimCList iteration, seeking, hashing, dump and restore; the other macro families of utlist.
- Netmask conversion, textual CIDR parsing, IPv4 and Ethernet address classes, class-based inference.
- Mininet topologies, the simulator, the web and messenger components, and the other POX applications.
