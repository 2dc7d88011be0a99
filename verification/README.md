# oflops-turbo: verified models

Models, in Dafny 4.11, of five parts of the oflops-turbo OpenFlow benchmark suite, with proofs of what
they are for. `dafny verify dfyconfig.toml` checks the whole project.

- **Timer queue and event thread** (`HeapModel`, `TimerSpec`, `EventQueue`, `EventLoop`). The binary heap in a
  doubling array is a class whose methods work in place. They are proved against functions on sequences,
  and those against a plain priority queue. The event thread, any number of inserting clients and the clock
  form a state machine in which the lock is released between deciding and extracting.
- **cbench fake switch** (`MsgBuf`, `Framing`, `SwitchSpec`, `SwitchRuns`, `FakeSwitch`). The growable byte
  buffer and the switch are classes. The switch refines a specification on values, and safety is proved
  over every run of reads, writes and resets. Messages follow section 5.1 of the OpenFlow Switch
  Specification 1.0.0.
- **NetFPGA memory loader** (`SramRecords`, `SramLayout`, `SramLoader`). Admission, the 9-byte record encoding, the
  layout of twelve queues, and the exact sequence of register writes, up to reading the accepted packets back out
  of the memory.
- **User-space traffic generator** (`Time`, `Checksum`, `Pieces`, `Packets`, `Extractor`, `Scheduler`,
  `Sending`). The frame is built and stamped in an array; the extractor inverts it; the scheduling loop emits the
  sorted merge of its streams, frame by frame.
- **Action list** (`ActionList`). The type-length-value buffer that `append_action` grows, against a parser for
  the structures of section 5.2.4 of the OpenFlow Switch Specification 1.0.0.

`Bytes`, `Arith` and `Pieces` hold the byte-level and arithmetic facts the others share.

System calls are parameters: what a read returned, how much a write took, the time, what `strtol` made of
a text, what freshly allocated memory held. Register writes are recorded in order, and the
registers are what replaying them leaves.

Where the code does not do what its name or comments promise, the model follows the code and states exactly
when the promise holds: early timers (`EventLoop.HorizonIsExact`), read and drain loops that do not
end (`SwitchSpec.ReadLoopEndsIff`, `SwitchSpec.DropLoopEndsIff`), resets that leave a response behind
(`SwitchSpec.DrainClearsIff`), probes before the configured delay (`SwitchSpec.StartsEarlyIff`), flow-mods too short for their command
(`SwitchSpec.FlowModDecidedIff`), padded packets (`SramRecords.PayloadCompleteIff`), packets of 65536 bytes or more
(`SramRecords.HalfWordsHoldIff`, `SramRecords.DecodeInvertsStoredAll`), tagged frames too short for their headers
(`Packets.FieldsFitIff`), odd checksum lengths (`Checksum.OddLengthIffLastZero`), VLAN ids
(`Extractor.VlanComesBackIff`), early frames (`Scheduler.EarlyIffAllFar`) and long delays
(`Time.AddTimespecNormalIff`).

## Model

| member | source | states |
|---|---|---|
| HeapModel.HeapifyPermutes | wc_event.c:123-143 | heapify keeps the multiset of queued elements, for every array and every slot |
| HeapModel.HeapifyOrders | wc_event.c:123-143 | heapify at slot i makes the subtree of i ordered when its child subtrees are, leaves every slot outside that subtree alone, and puts the earliest of slot and children at i |
| HeapModel.SiftUpOrders | wc_event.c:162-168 | the insertion loop turns an array with one misplaced leaf into an ordered heap |
| HeapModel.InsertCorrect | wc_event.c:146-173 | insertion keeps the heap order and adds exactly the new element |
| HeapModel.RootIsMinimal | wc_event.c:215-238 | the root of an ordered heap is minimal among all elements |
| HeapModel.ExtractCorrect | wc_event.c:215-238 | extraction keeps the heap order, removes exactly the root, and the root was minimal |
| HeapModel.RebuildOrders | wc_event.c:266-270 | heapify at a slot and at each of its ancestors orders the heap again, whatever key was put into the slot |
| HeapModel.DeleteCorrect | wc_event.c:247-277 | deletion at any slot keeps the heap order and removes exactly that element, whether the moved key is too small or too large for its new place |
| TimerSpec.IdsCountUp | wc_event.c:148-173 | over every run the ids handed out are consecutive |
| TimerSpec.Conservation | wc_event.c:146-277 | over every run of add, extract and remove, each added event was either taken or is still queued, with its own key and argument |
| TimerSpec.AtMostOnce | wc_event.c:146-277 | no id is taken twice, no taken id is still queued, and queued ids are distinct |
| TimerSpec.DrainSorts | wc_event.c:215-238 | extractions in a row give non-decreasing keys |
| TimerSpec.FullDrainIsSortedPermutation | wc_event.c:215-238 | draining the queue yields a sorted permutation of its contents |
| EventQueue.HeadDecides | wc_event.c:325-341 | when the head is not before now, no queued event is |
| EventQueue.WcQueue.constructor | wc_event.c:77-99 | a new queue is empty and valid, for every initial size of at least one, and its ids go on from any earlier queue |
| EventQueue.WcQueue.VerifyHeap | wc_event.c:456-466 | verify_heap succeeds exactly on ordered heaps |
| EventQueue.WcQueue.Heapify | wc_event.c:123-143 | the in-place recursion computes HeapModel.Heapify of the slots |
| EventQueue.WcQueue.Double | wc_event.c:368-380 | the array doubles and loses no slot |
| EventQueue.WcQueue.Add | wc_event.c:146-173 | wc_event_add is an Add step of the plain priority queue, with the returned id, on a heap that stays ordered |
| EventQueue.WcQueue.Climb | wc_event.c:162-168 | the in-place climbing loop computes HeapModel.Inserted |
| EventQueue.WcQueue.Extract | wc_event.c:215-238 | wc_queue_extract returns a minimal event with its own id, key, function and argument and removes just it, or reports an empty queue |
| EventQueue.WcQueue.Remove | wc_event.c:247-277 | wc_event_remove removes exactly the event with that id and hands back its argument, or reports that there is none and changes nothing |
| EventQueue.WcQueue.FixUp | wc_event.c:266-270 | the in-place repair loop computes HeapModel.Rebuild |
| EventQueue.WcQueue.NextEventDelta | wc_event.c:325-341 | -1 exactly on an empty queue; 1 when a minimal event is past; 0 with the distance to a minimal event otherwise |
| EventQueue.WcQueue.NextEvent | timer_event.c:6-19 | the microseconds to wait as the specification gives them, including the narrowing to 32 bits |
| EventLoop.AnswersAre | timer_event.c:6-19 | with normalised times the answer is a second on an empty queue, -1 when an event is overdue, not positive when one is due, and otherwise the least number of microseconds to any queued event while the first is within the horizon |
| EventLoop.PollDecides | wc_event.c:401-435 | a poll that decides to run an event means that some queued event is due |
| EventLoop.PollDecidesIff | wc_event.c:401-435 | a poll decides to run an event if and only if some queued event is due |
| EventLoop.StepKeepsInv | wc_event.c:401-435 | every step of the event thread, a client or the clock keeps the loop invariant |
| EventLoop.RunKeepsInv | wc_event.c:401-435 | the invariant holds in every reachable state of every interleaving |
| EventLoop.EveryDeliveryOnTime | wc_event.c:401-435 | in every interleaving, inserts between unlock and extract included, no event is delivered before its key and each is minimal among those queued when it is extracted |
| EventLoop.ExtractionFindsAnEvent | timer_event.c:22-41 | the extraction after the unlock never finds the queue empty |
| EventLoop.DueIsDelivered | wc_event.c:401-435 | once the event thread polls with an event due, its next six steps deliver one, whatever the other threads and the clock do in between |
| EventLoop.NeverStuck | wc_event.c:401-435 | in every interleaving the event thread can take a step whenever no client holds the mutex, until the end is asked for |
| EventLoop.EventsConserved | wc_event.c:401-435 | every inserted event is queued, in the hands of the event thread, or delivered, in equal numbers |
| EventLoop.DeliveredAtMostOnce | wc_event.c:401-435 | no event is delivered twice, and a delivered event is no longer queued |
| EventLoop.AddedIdsCountUp | wc_event.c:148-173 | ids count up over every interleaving of clients |
| EventLoop.BeyondHorizonEarly | timer_event.c:13 | for every key 2^31 microseconds or more ahead there is a run that delivers it early |
| EventLoop.HorizonIsExact | timer_event.c:13 | an early delivery of a single timer is possible if and only if its key lies 2^31 microseconds or more after the start |
| MsgBufs.MsgBuf.constructor | msgbuf.c:17-28 | a new buffer is empty and has room |
| MsgBufs.MsgBuf.Read | msgbuf.c:31-39 | the bytes read are appended, nothing else changes, and there is room for the next read afterwards |
| MsgBufs.MsgBuf.Write | msgbuf.c:60-101 | what is sent is a prefix of the contents no longer than asked for; the rest stays; asking for more than there is fails |
| MsgBufs.MsgBuf.Clear | msgbuf.c:121-124 | clearing forgets all bytes and starts a new history |
| MsgBufs.MsgBuf.Grow | msgbuf.c:126-135 | the capacity doubles and the contents stay |
| MsgBufs.MsgBuf.Pull | msgbuf.c:144-155 | pulling takes a prefix off the front, all there is if less than asked for, and fails exactly on an empty buffer or a count that is not positive |
| MsgBufs.MsgBuf.Push | msgbuf.c:157-163 | pushing appends all bytes whatever their number; the growing loop ends |
| Framing.CutAnywhere | cbench/fakeswitch.c:192-197 | cutting a stream into messages at any point and going on with the rest gives the messages of the whole stream |
| Framing.SteadyPrefix | cbench/fakeswitch.c:192-197 | a stream the loop can cut has only prefixes it can cut |
| Framing.CutLosesNothing | cbench/fakeswitch.c:192-197 | the messages and the rest put together are the stream, when every length is at least 8 |
| Framing.CutInvertsConcat | cbench/fakeswitch.c:192-197 | cutting a concatenation of whole messages gives back those messages |
| SwitchSpec.EncodeExact | cbench/fakeswitch.c:102-173 | every message built has a length field equal to its size, its own type, and the id of the request it answers |
| SwitchSpec.HeaderBytes | cbench/fakeswitch.c:102-173 | the first eight bytes of every message: version 1, its type, its size, and the transaction id |
| SwitchSpec.FeaturesBytes | cbench/fakeswitch.c:102-131 | the features reply carries the switch id as a 64-bit datapath id, and the canned buffers, tables, capabilities and actions |
| SwitchSpec.FeaturesPorts | cbench/fakeswitch.c:102-131 | and the four ports 0 to 3, 48 bytes apart |
| SwitchSpec.VendorBytes | cbench/fakeswitch.c:133-144 | the vendor reply is error type 1, code 3 |
| SwitchSpec.ProbeBytes | cbench/fakeswitch.c:147-173 | a probe carries its number in host order behind the first byte of its source address, and the switch id at the end of both addresses |
| SwitchSpec.WireIsCutBack | cbench/fakeswitch.c:102-173 | what the switch says is cut back into exactly its messages |
| SwitchSpec.HandlesExactlyTheMessages | cbench/fakeswitch.c:192-273 | the read loop dispatches exactly the messages of the buffered stream, in order, and leaves the rest |
| SwitchSpec.OneReadAtATime | cbench/fakeswitch.c:175-274 | two reads do what one read of both chunks does, and leave no complete message |
| SwitchSpec.ChunkingIsIrrelevant | cbench/fakeswitch.c:175-274 | for every way of cutting the stream into reads the final state, answers and buffered rest are those of a single read |
| SwitchSpec.CountsOnBytes | cbench/fakeswitch.c:198-272 | on the bytes of a message: type 13 always and type 14 exactly with command 0 or 2 is counted and takes a probe off, type 4 takes all off, nothing else changes the counters |
| SwitchSpec.ReactsOnBytes | cbench/fakeswitch.c:217-259 | on the bytes of a message: types 5, 4 and 2 are answered with the id of bytes 4 to 7, and type 5 starts the probes at once or after the configured milliseconds |
| SwitchSpec.DelayEnds | cbench/fakeswitch.c:302-311 | a delayed switch is ready at the first write after its start |
| SwitchSpec.StartsEarlyIff | cbench/fakeswitch.c:229-232 | probes can start before the configured milliseconds are over if and only if the microseconds of request and delay together exceed a second |
| SwitchSpec.ResponsesAgree | cbench/fakeswitch.c:208-216 | which flow-mods count is the same for the dispatch and for the byte-level results |
| SwitchSpec.ReadLoopEndsIff | cbench/fakeswitch.c:192-197 | the read loop ends if and only if no message of the stream has length zero |
| SwitchSpec.FlowModDecidedIff | cbench/fakeswitch.c:207-216 | whether a flow-mod counts is decided by the message alone if and only if it has 58 bytes, or 57 of which the last is not zero |
| SwitchSpec.CutMatters | cbench/fakeswitch.c:192-216 | for each flow-mod not decided by itself there are a continuation and stale bytes for which it counts in one cut of the stream and not in another |
| SwitchSpec.LengthKnownIff | cbench/fakeswitch.c:89-96 | the length the draining loop peeks at is decided by the buffered bytes if and only if there are at least four |
| SwitchSpec.PrepareAdds | cbench/fakeswitch.c:284-311 | a write event adds exactly the probes it counts, with the next addresses, and touches neither input nor count |
| SwitchSpec.ThroughputFills | cbench/fakeswitch.c:288-301 | in throughput mode a ready fill tops the buffer up to at most 65536 bytes and to within one probe of it, with whole probes, all of them counted |
| SwitchSpec.StaysSilent | cbench/fakeswitch.c:284-301 | nothing is sent before the switch is ready, with a full buffer in throughput mode, or with a probe out in latency mode |
| SwitchSpec.DrainKeepsFraming | cbench/fakeswitch.c:87-97 | the draining of a reset drops whole messages only: what is left starts at a message boundary of the stream |
| SwitchSpec.DropLoopEndsIff | cbench/fakeswitch.c:88-96 | the draining loop ends if and only if none of the lengths it acts on is zero |
| SwitchSpec.DrainClearsIff | cbench/fakeswitch.c:86-97 | draining a read leaves no whole message if and only if the incomplete message at the end is at least as long as what was buffered before the read |
| SwitchSpec.ResponseSurvives | cbench/fakeswitch.c:86-97 | a packet-out whose last bytes arrive in the drained read stays buffered, complete |
| SwitchRuns.StepKeepsInv | cbench/fakeswitch.c:175-315 | every read, write, reset and drain keeps the invariant of the switch |
| SwitchRuns.RunKeepsInv | cbench/fakeswitch.c:175-315 | the invariant holds in every reachable state |
| SwitchRuns.OutputIsWellFramed | cbench/fakeswitch.c:56-62 | in every run the bytes written and buffered are HELLO and whole messages whose length fields match their sizes |
| SwitchRuns.NoProbeBeforeFeatures | cbench/fakeswitch.c:284-314 | in every run each PACKET_IN is preceded by a features reply |
| SwitchRuns.RepliesMatchRequests | cbench/fakeswitch.c:217-259 | in every run the replies match the features, vendor and echo requests handled one to one, in order, with the same transaction id |
| SwitchRuns.LatencyHasOneProbeOut | cbench/fakeswitch.c:284-301 | in latency mode at most one probe is outstanding, and the probes sent never exceed responses, vendor messages, resets and the outstanding probe together |
| SwitchRuns.ProbesAlternate | cbench/fakeswitch.c:78-85 | in latency mode, between any two writes that put a probe out there is a reset or a read that handled a response or a vendor message |
| SwitchRuns.LatencySendsIff | cbench/fakeswitch.c:284-301 | in every latency run a write puts a probe out if and only if the switch is ready and none is out, and then exactly one with the next address |
| SwitchRuns.ResetRestarts | cbench/fakeswitch.c:78-85 | after a reset the next write of a ready latency switch puts a probe out, whatever was outstanding |
| SwitchRuns.CountsResponses | cbench/fakeswitch.c:202-216 | in every run the count grows between resets by exactly the responses handled |
| SwitchRuns.InputIsCutWhole | cbench/fakeswitch.c:192-273 | until the first reset the messages handled are exactly those of the whole input, and only a strict prefix of one stays buffered |
| SwitchRuns.FramingNeverBreaks | cbench/fakeswitch.c:87-97 | in every run, resets included, what is buffered is everything read without some of its first messages, each taken out whole |
| SwitchRuns.ProbeAddressesCycle | cbench/fakeswitch.c:291-301 | in every run the n-th probe carries source address n modulo the number of addresses |
| SwitchRuns.WireProbeAddresses | cbench/fakeswitch.c:291-301 | read off the wire, a PACKET_IN with n PACKET_INs before it carries n modulo the number of addresses |
| FakeSwitches.FakeSwitch.constructor | cbench/fakeswitch.c:37-64 | a new switch is the initial state of the runs, HELLO already buffered |
| FakeSwitches.FakeSwitch.DispatchOne | cbench/fakeswitch.c:198-272 | handling one message is SwitchSpec.Dispatch of the state, and records the message |
| FakeSwitches.FakeSwitch.TakeAll | cbench/fakeswitch.c:192-273 | the loop over buffered messages is SwitchSpec.HandleAll of the state, and records exactly the messages of the buffer |
| FakeSwitches.FakeSwitch.OnReadable | cbench/fakeswitch.c:175-274 | a read event is a Read step of the runs; an error or end of file changes nothing and ends the program |
| FakeSwitches.FakeSwitch.QueueMany | cbench/fakeswitch.c:291-301 | the probe loop is SwitchSpec.QueueProbes of the state |
| FakeSwitches.FakeSwitch.Fill | cbench/fakeswitch.c:284-311 | the fill before a write is SwitchSpec.Prepare of the state |
| FakeSwitches.FakeSwitch.OnWritable | cbench/fakeswitch.c:276-315 | a write event is a Write step of the runs, for every number of bytes the socket takes |
| FakeSwitches.FakeSwitch.Flush | cbench/fakeswitch.c:313-314 | a prefix of the buffered bytes is sent and the rest kept |
| FakeSwitches.FakeSwitch.ResetCount | cbench/fakeswitch.c:78-85 | taking the count resets count and probes and is a Reset step of the runs |
| FakeSwitches.FakeSwitch.DropOneRead | cbench/fakeswitch.c:87-97 | one turn of the draining loop is a Drop step of the runs |
| SramRecords.PayloadCompleteIff | pkt_gen/pkt_gen_2.c:259-283 | the copying loop writes as many data words as the header announces if and only if there is no padding or the packet has at most 8 bytes |
| SramRecords.CopiedFits | pkt_gen/pkt_gen_2.c:259-283 | the loop never writes more data words than are announced |
| SramRecords.LastCtrlCounts | pkt_gen/pkt_gen_2.c:263-266 | the one-hot control byte of the last word gives the number of valid bytes |
| SramRecords.LastCtrlBit | pkt_gen/pkt_gen_2.c:263-266 | that byte is the bit of the last valid byte counted from the left |
| SramRecords.HeaderBytes | pkt_gen/pkt_gen_2.c:199-207 | the nine bytes of a header whose numbers fit, with bit port of the second byte set |
| SramRecords.PaddedPacket | pkt_gen/pkt_gen_2.c:199-283 | a padded packet is a header for 64 bytes, a padding header with the true numbers, and only the first payload word |
| SramRecords.HalfWordsHoldIff | pkt_gen/pkt_gen_2.c:204-227 | the four 16-bit halves of a packet's header, or of its padding header, hold port, word count, source and length if and only if the packet is shorter than 65536 bytes |
| SramRecords.HeaderHoldsIff | pkt_gen/pkt_gen_2.c:204-206 | any header keeps its four halves apart if and only if word count and length both fit 16 bits |
| SramRecords.LengthLost | pkt_gen/pkt_gen_2.c:206 | from 65536 bytes on the length runs over into the source port, the halves announce another length, and nothing is decoded |
| SramRecords.DecodedAreShort | pkt_gen/pkt_gen_2.c:199-283 | no record stream whatever decodes to a packet of 65536 bytes or more |
| SramRecords.DecodeStored | pkt_gen/pkt_gen_2.c:199-283 | a stored packet in front of any records that decode comes back, followed by theirs, if and only if it is shorter than 65536 bytes |
| SramRecords.DecodeInvertsStoredAll | pkt_gen/pkt_gen_2.c:199-283 | without padding, decoding a record stream gives back exactly the packets stored, with ports, length and bytes, in order, if and only if all are shorter than 65536 bytes |
| SramLayout.AdmissionLeavesRoom | pkt_gen/pkt_gen_2.c:40-46 | the bound on admitted words leaves every receive queue its minimum |
| SramLayout.QueuesFillMemory | pkt_gen/pkt_gen_2.c:529-611 | the twelve queue sizes sum to the memory, for all queue contents |
| SramLayout.RegionsTileMemory | pkt_gen/pkt_gen_2.c:529-611 | after any sequence of loaded packets every word of the memory lies in exactly one of the twelve regions the registers give |
| SramLayout.RegionsStayInMemory | pkt_gen/pkt_gen_2.c:529-611 | no region reaches outside the memory |
| SramLayout.RxMinimum | pkt_gen/pkt_gen_2.c:541-551 | every receive queue gets at least MIN_RX_QUEUE_SIZE words |
| SramLayout.RegionSizes | pkt_gen/pkt_gen_2.c:515-518 | read off the registers: the queues follow one another from word 0, a set-up queue has 4096 words, a transmit queue the words charged but at least 4, and the control values are 1 and 2 |
| SramLayout.ReceiveShares | pkt_gen/pkt_gen_2.c:546-549 | read off the registers: the other receive queues are equal and the first is at most three words larger |
| SramLayout.TraceReorganizes | pkt_gen/pkt_gen_2.c:529-611 | the writes leave every queue with its region and its control value, whatever was written before |
| SramLayout.ResizedWhileDisabled | pkt_gen/pkt_gen_2.c:556-607 | at every write to an address register of a queue that queue's control register holds 0 |
| SramLayout.EnabledOnlyAfterwards | pkt_gen/pkt_gen_2.c:556-607 | at every write that enables a queue all twelve queues have their regions |
| SramLayout.TraceSparesMemory | pkt_gen/pkt_gen_2.c:529-611 | laying out the queues changes no word of the memory |
| SramLoader.RecordsWithinCharge | pkt_gen/pkt_gen_2.c:160-186 | a packet never stores more records than it is charged words |
| SramLoader.ChargeIs | pkt_gen/pkt_gen_2.c:159-174 | a packet is charged a header, a word for a positive delay and the least words that hold it, or 10 words and the delay word when padded |
| SramLoader.RecordWrites | pkt_gen/pkt_gen_2.c:630-649 | the three addresses and values written for a record, byte by byte |
| SramLoader.AdmittedIsExact | pkt_gen/pkt_gen_2.c:160-186 | the conversion of the length to float never changes an admitted packet without padding |
| SramLoader.ReadBackIs | pkt_gen/pkt_gen_2.c:630-649 | the memory words behind a base address, read back, are the records that were loaded |
| SramLoader.HoldsKept | pkt_gen/pkt_gen_2.c:630-649 | loading one port leaves the records of every other port in place |
| SramLoader.ReorganizedKept | pkt_gen/pkt_gen_2.c:630-649 | loading a port leaves all queue registers as they were |
| SramLoader.LoadedIsSent | pkt_gen/pkt_gen_2.c:763-770 | without padding, decoding the transmit region that a port's registers name gives exactly the packets accepted for the port, and they fit in it, if and only if all are shorter than 65536 bytes |
| SramLoader.LongPacketAdmitted | pkt_gen/pkt_gen_2.c:174-206 | a packet of 65536 bytes is admitted and then decodes to nothing |
| SramLoader.LoadsHold | pkt_gen/pkt_gen_2.c:763-770 | loading port after port keeps the layout and leaves each port's records in its own queue |
| SramLoader.PortInside | pkt_gen/pkt_gen_2.c:630-649 | every write that loads a port goes to that port's own transmit region |
| SramLoader.PktGen.constructor | pkt_gen/pkt_gen_2.c:73-85 | initially no port has words, data or packets |
| SramLoader.PktGen.LoadPacket | pkt_gen/pkt_gen_2.c:142-283 | a packet is accepted exactly when its charge fits; then its port alone grows, by the charge and by the packet's records, and the counters go on counting its packets and bytes modulo 2^32; otherwise nothing changes |
| SramLoader.PktGen.Words | pkt_gen/pkt_gen_2.c:259-283 | the copying loop produces one record for each 8 bytes, the last with its control byte |
| SramLoader.PktGen.ReceiveSizes | pkt_gen/pkt_gen_2.c:541-549 | in unsigned 32-bit arithmetic the memory left is shared equally, the first queue getting the remainder, each at least the minimum, so no subtraction wraps |
| SramLoader.PktGen.QueueReorganize | pkt_gen/pkt_gen_2.c:529-611 | the writes made are exactly disable, lay out, enable in that order; the registers then hold the layout, the transmit bases agree with it, and the memory is untouched |
| SramLoader.PktGen.LoadQueues | pkt_gen/pkt_gen_2.c:630-649 | the writes made are the three of each record in order, each address lies in that port's own transmit region, and the memory then holds all records |
| SramLoader.PktGen.LoadAll | pkt_gen/pkt_gen_2.c:763-770 | the writes made are those of the layout and then of every port; without padding the card reads back exactly the accepted packets of a port if and only if all are shorter than 65536 bytes |
| Time.AddTimespecNormalIff | utils.c:74-83 | adding to normalised times always gives a normalised time if and only if at most one second is added |
| Time.ToTimevalRoundsDown | traffic_generator.c:144-149 | the conversion to microseconds rounds down |
| Checksum.IpSumCalc | utils.c:136-156 | the loop computes the residue of the word sum; the 32-bit accumulator never overflows and the folding ends |
| Checksum.Accumulate | utils.c:141-147 | one turn keeps the accumulator below 2^31 and the sum modulo 65535 |
| Checksum.FoldDown | utils.c:152-153 | folding ends with the 16-bit residue of the accumulator |
| Checksum.EvenLengthIsInternetChecksum | utils.c:136-156 | on every even length the result is the one's-complement checksum of section 1 of RFC 1071 |
| Checksum.OddLengthIffLastZero | utils.c:149-150 | on odd lengths it is that checksum if and only if the last byte is zero |
| Checksum.OwnChecksumVerifies | utils.c:136-156 | recomputing over data that holds its own checksum gives zero |
| Packets.Build | traffic_generator.c:218-281 | the builder refuses frames under 58 bytes and otherwise lays out every field, with a checksum over the finished header |
| Packets.FieldsFitIff | traffic_generator.c:218-281 | of the frames not refused, all fields lie inside the frame if and only if it is untagged or has at least 62 bytes |
| Packets.Packet.Fill | traffic_generator.c:218-281 | filling an empty frame in place gives the complete frame for the lowest destination |
| Packets.Packet.Stamp | traffic_generator.c:176-193 | the n-th transmission puts sequence number, time, next destination and a fresh checksum in place and changes no other byte |
| Packets.Packet.Redirect | traffic_generator.c:186-193 | the destination moves on, or back to the lowest, and the checksum is made anew |
| Packets.HeaderVerifies | traffic_generator.c:190-193 | the header with its checksum sums to zero for every destination |
| Extractor.ExtractFindsFields | traffic_generator.c:527-598 | extracting any built and stamped frame, tagged or not, gives the sequence number, time, hardware and IP addresses and ports put in |
| Extractor.ExtractPkt | traffic_generator.c:527-598 | the extractor returns that flow and turns the generator header into host order in place, or returns nothing and changes nothing |
| Extractor.HostOrderReads | traffic_generator.c:588-592 | the header handed to the caller reads as the numbers on the wire, and no other byte changed |
| Extractor.PointerReadsFlow | traffic_generator.c:586-592 | the numbers behind the returned pointer are those of the flow |
| Extractor.ExtractAnswersIff | traffic_generator.c:535-555 | there is an answer if and only if the port passes the test, the frame is IP with at most one tag, and the capture holds the IP header |
| Extractor.VlanComesBackIff | traffic_generator.c:566 | the VLAN id comes back if and only if it is 1 to 255 or 0xffff |
| Extractor.FrameChecksumValid | traffic_generator.c:190-193 | every frame sent has a valid header checksum (section 3.1 of RFC 791) |
| Extractor.FrameBytes | traffic_generator.c:218-281 | the lengths, time to live, protocol, magic number and zeros of every frame sent, byte by byte |
| Extractor.TagOnWire | traffic_generator.c:234-239 | the six bytes of the tag of a tagged frame |
| Extractor.DestIs | traffic_generator.c:186-190 | the n-th frame of a stream goes to the lowest address plus n modulo the number of addresses |
| Extractor.EachDestinationOnce | traffic_generator.c:186-190 | any run of frames as long as the range visits each destination exactly once |
| Scheduler.MinGenerator | traffic_generator.c:158-174 | the stream found has an earliest timestamp; -1 exactly when there is none to serve |
| Scheduler.Generator.constructor | traffic_generator.c:283-304 | every stream of the plan is due at its first timestamp with sequence number zero |
| Scheduler.Generator.Turn | traffic_generator.c:306-328 | one turn serves a stream with an earliest timestamp if it is due, and is a step of the schedule |
| Scheduler.SendsOnTime | traffic_generator.c:320-325 | while differences stay below 2^31 microseconds a frame leaves if and only if its microsecond has come, so less than a microsecond early |
| Scheduler.SendsEarlyIff | traffic_generator.c:320-325 | a frame whose microsecond has not come leaves if and only if the distance modulo 2^32 is zero or at least 2^31 |
| Scheduler.RunKeepsInv | traffic_generator.c:306-328 | the schedule invariant holds in every reachable state |
| Scheduler.EmitsSortedMerge | traffic_generator.c:306-328 | the frames of every run are the sorted merge of the streams: timestamps never decrease, and frame n of stream j, counted from zero, has timestamp first plus n delays |
| Scheduler.ServedInTurn | traffic_generator.c:306-328 | each frame was served in one turn, at that turn's clock reading |
| Scheduler.StampsStayNormal | traffic_generator.c:306-328 | timestamps stay normalised over every run when no delay exceeds a second |
| Scheduler.NothingLeavesEarly | traffic_generator.c:306-328 | in every run under a clock that never goes back, with one stream due within 2^31 microseconds of the first reading, no frame of any stream leaves a microsecond or more before its timestamp |
| Scheduler.EarlyIffAllFar | traffic_generator.c:306-328 | under a clock that never goes back some run sends early if and only if every stream's first timestamp lies 2^31 microseconds or more after the first reading |
| Scheduler.FarSendsEarly | traffic_generator.c:321-325 | such a run, for all streams that far ahead |
| Scheduler.ClockBackSendsEarly | traffic_generator.c:321-325 | when the clock may go back there is a run that sends early, for all streams and first readings |
| Scheduler.InitTrafficGen | traffic_generator.c:283-304 | one stream for each channel that generates traffic, first due at the clock reading there plus the random offset |
| Scheduler.ActiveIs | traffic_generator.c:290-300 | the streams' channels are all channels that generate traffic, each once, in order |
| Scheduler.PlanIs | traffic_generator.c:297-299 | each stream has its channel's period and is first due at the channel's clock reading plus the random part of a second |
| Scheduler.ChannelFrames | traffic_generator.c:283-328 | in every run, frame n of a channel is due at its reading plus its random offset plus n of its periods |
| Scheduler.InitIsNear | traffic_generator.c:297-299 | the first timestamps made are normalised and within the horizon of any later reading |
| Scheduler.StartedRunsArePunctual | traffic_generator.c:283-328 | for all channels, offsets and readings, no frame of a run of the program leaves a microsecond or more early while the clock never goes back |
| Sending.SentCarries | traffic_generator.c:176-198 | every frame of every run, extracted, carries the number of frames its stream sent before modulo 2^32, the clock reading it was served at and the next destination of its stream, was due at its stream's period in sorted order, and, under a clock that never goes back and with a stream within the horizon, did not leave early |
| Sending.Sender.constructor | traffic_generator.c:283-304 | built frames and a fresh schedule form the start of a run |
| Sending.Sender.Turn | traffic_generator.c:306-328 | one turn is a step of the schedule together with the frame that leaves, and keeps the counters of schedule and frames equal |
| Sending.Sender.Send | traffic_generator.c:176-198 | send_pkt puts exactly the frame of its stream on the wire and touches no other stream |
| ActionList.IsHex | example_modules/openflow_action_delay/action_delay.c:738-749 | true exactly for texts of hexadecimal digits |
| ActionList.ReadHex | example_modules/openflow_action_delay/action_delay.c:474-491 | the byte that two digits denote |
| ActionList.DigitIs | example_modules/openflow_action_delay/action_delay.c:481-487 | a digit has the value of its place in 0123456789abcdef, in either case |
| ActionList.TextReads | example_modules/openflow_action_delay/action_delay.c:474-491 | reading the text of bytes gives back the bytes |
| ActionList.MacOfText | example_modules/openflow_action_delay/action_delay.c:667-690 | an address given as the text of six bytes is accepted as these bytes |
| ActionList.AddressOfText | example_modules/openflow_action_delay/action_delay.c:692-706 | an address given as the text of four bytes is accepted as their value |
| ActionList.NetworkOrder | example_modules/openflow_action_delay/action_delay.c:692-706 | an address of eight digits fits 32 bits and goes on the wire as its four pairs of digits |
| ActionList.ParseAccounts | example_modules/openflow_action_delay/action_delay.c:604-732 | in any list that parses, lengths are multiples of 8 and sum to its size |
| ActionList.BodyMeans | example_modules/openflow_action_delay/action_delay.c:604-732 | the fields written for each of the eleven kinds mean the action asked for, whatever the unwritten bytes hold |
| ActionList.StructBytes | example_modules/openflow_action_delay/action_delay.c:604-732 | the structure of each kind, byte by byte |
| ActionList.AskedIff | example_modules/openflow_action_delay/action_delay.c:604-732 | a call adds an action if and only if its kind is known and it is not refused |
| ActionList.ParseInvertsAppend | example_modules/openflow_action_delay/action_delay.c:604-732 | parsing the buffer gives back exactly the accepted actions in order |
| ActionList.ActionBuffer.AppendAction | example_modules/openflow_action_delay/action_delay.c:604-732 | an accepted call adds exactly the action asked for to what the buffer parses to, as the bytes of its structure; a refused or unknown one leaves the buffer unchanged; -1 is returned exactly on refusal |
| ActionList.ActionBuffer.Refuses | example_modules/openflow_action_delay/action_delay.c:632-695 | the refused parameters are exactly those outside their range or not hexadecimal of the right length |

## Left out

- Sockets, pcap, SNMP, the kernel packet generator, libfluid and register reads: foreign input and output.
- The signal-driven timer path of `wc_event.c`, which its header advises against, and `wc_event_remove` running beside the event thread: it takes no lock, so it is modelled between other calls only.
- EventQueue.WcQueue.Add: ids and sizes are unbounded integers; the overflow of a C int after 2^31 events and failing allocation are not modelled.
- FakeSwitches.FakeSwitch.OnReadable: zero lengths, on which the loop does not end, and FLOW_MODs too short for their command, which the code decides by the bytes that happen to follow (SwitchSpec.FlowModDecidedIff), are excluded.
- FakeSwitches.FakeSwitch.TakeAll: excludes the same messages.
- FakeSwitches.FakeSwitch.DispatchOne: excludes the same FLOW_MODs.
- SwitchSpec.HandlesExactlyTheMessages: excludes the same messages.
- SwitchSpec.OneReadAtATime: excludes the same messages.
- SwitchSpec.ChunkingIsIrrelevant: excludes the same messages; for those FLOW_MODs the cut does matter (SwitchSpec.CutMatters).
- FakeSwitches.FakeSwitch.DropOneRead: draining with fewer than 4 bytes of a header buffered is excluded, because the code then reads a length that has not arrived (SwitchSpec.LengthKnownIff), and so are zero lengths, on which it does not end (SwitchSpec.DropLoopEndsIff); a reset and its draining are separate steps, since what each read returns depends on the room in the buffer.
- SwitchSpec.DrainKeepsFraming: excludes the same peeks and lengths.
- `msgbuf_read_all` and `msgbuf_write_all`: the latter never reports what it wrote.
- SramLoader.PktGen.LoadPacket: the delay worked out from capture timestamps and the rounding of a float are parameters; the per-port clock and time estimates, which are floating point, are not modelled.
- The rate limiter, iteration counts and capture set-up of `pkt_gen/pkt_gen_2.c`: floating point and single register writes.
- Packets.Build: tagged frames of 58 to 61 bytes, whose last fields the code writes past the end (Packets.FieldsFitIff), are excluded; address texts arrive already parsed.
- Extractor.ExtractFindsFields: the NetFPGA capture format is not modelled, nor the index one past the last channel, which the test of the code lets through.
- Extractor.ExtractPkt: captures that end inside the UDP or generator header, which the code reads past their end because it compares the length with the IP header only, are excluded.
- `add_time` and `time_cmp` of `utils.c`: the same as `add_timespec` and an ordinary comparison.
- ActionList.ActionBuffer.AppendAction: `strtol` itself is a parameter.
- `pcap_track.c`: superseded, and reached by none of the test modules' defaults.
- Argument and configuration parsing, statistics and logging: calls into the C library and GSL that the code only passes values to.
- The life cycle over several tests, and the test modules other than `openflow_action_delay`: they wait for events and call the parts modelled here.
