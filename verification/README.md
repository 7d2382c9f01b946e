# A mesh radio network, verified

This project models the radio mesh and its simulator: the protocol by which nodes wake
up, learn their neighbours and route packets; the event queue, topology index and
reference counting the simulator is built on; the link layer with its CRC, symbol codec
and framing; and the threaded send queue of the first version. Each model is a Dafny
program that does what the C or Python code does, and the properties the code is meant
to have are proved of it for all inputs, all interleavings and all random choices.

`dafny verify dfyconfig.toml` checks everything.

| file | models |
|---|---|
| `Crc.dfy` | the CRC-16 loop, its table, setting and checking |
| `CrcDivision.dfy`, `CrcOrder.dfy`, `CrcDetection.dfy`, `CrcBurst.dfy` | the CRC as polynomial division, the order of x, which errors and bursts are caught |
| `Digits.dfy`, `Bytes.dfy`, `Limits.dfy`, `Wrappers.dfy` | numbers as digits and bytes, sizes of packets, optional results |
| `SymbolCodec.dfy`, `CodecBits.dfy` | packing bytes into 6 or 7 bit symbols, for both versions at once, and the same bit by bit |
| `SymbolTable.dfy`, `ShippedTable.dfy` | the generator of the symbol tables and the tables it made |
| `Radio.dfy`, `Damage.dfy` | frames on the line, sending and receiving; what a damaged frame comes to |
| `EventQueue.dfy` | the resizing heap of events |
| `Topo.dfy`, `TopoLinks.dfy` | the hash index of edges, and the network it stands for |
| `Neigh.dfy`, `Node.dfy`, `NodeLaws.dfy`, `Routing.dfy` | neighbour tables, the node's handlers and what they come to, greedy routing |
| `Mesh.dfy`, `MeshLaws.dfy` | the whole network as a transition system with beacons in the air; getting up and the handshake |
| `Packet.dfy`, `Sim.dfy`, `Waking.dfy` | reference-counted packets, the event loop, and the wave that wakes the network |
| `SendQueue.dfy`, `SendCalls.dfy` | the send queue's threads as interleaved statements; what a call achieves |

Objects that the source updates in place (queue, index, iterators, tables, nodes, the
simulator, the serial device) are classes whose methods are proved against functions on
values; lemmas then speak about those functions. The send queue's threads and the
network are transition systems, because what matters there is every interleaving.

How the main results hang together:

* The table loop is a bit-serial register, the register is division by
  x^16+x^12+x^5+1 (section 2 of ITU-T Recommendation V.41), and x has order 32767; so an
  accepted packet is characterised by divisibility and error detection is exact. The
  check bytes are stored low byte first, which the codeword accounts for.
* Encoding and decoding are digit strings of one number in two bases; the tables are
  inverse because of how they are generated; framing symbols are outside the codec; so
  the receiver recovers every packet exactly when it leaves itself a start symbol.
* Each handler keeps an invariant of tables and of beacons in the air together; the
  simulator's loop is shown to be a run of that network, a chain of rounds in which every
  queued event is handled once. Hence timers go on, beacons arrive, and the network wakes
  up: no earlier than 2.5 s per link and no later than 4.2 s per link and 1.501 s.

Where the code and its comments differ, the model follows the code:

* `neigh.c:21-23` says an expired entry is replaced; the code never looks at the expiry,
  but an INF report does replace strata 2 and 3.
* `topo.c:11` says repeated entries are not handled; the code replaces them, which is
  what is proved.
* The route test runs with the tick's time, which can be earlier than events already
  handled (`sim.c:149-157`); so only timers and beacons are claimed to be in time order.

## Model

| member | source | states |
|---|---|---|
| `Crc.TableEntry` | radio2/src/crc.c:14-47 | Each of the 256 table entries is its index, placed at the top of a word, multiplied by x^8 modulo the generator. |
| `Crc.TableLoopIsBitSerial` | radio2/src/crc.c:51-59 | For every message and start value the table-driven byte loop equals the bit-by-bit division register. |
| `Crc.Crc16` | radio2/src/crc.c:51-59 | The loop returns the CRC of exactly the first nbyt bytes. |
| `Crc.Crc16Set` | radio2/src/crc.c:63-68 | The last two of the first nbyt bytes become the CRC of the others, low byte first; nothing else changes. |
| `Crc.Crc16Check` | radio2/src/crc.c:72-77 | True exactly when there are two bytes and the last two are the CRC of the rest. |
| `Crc.AcceptedIffSealed` | radio2/src/crc.c:63-77 | crc16_check accepts exactly the packets that crc16_set produces. |
| `CrcDivision.ValueAdditive` | radio2/src/crc.c:51-59 | The remainder is additive over XOR of messages of equal length. |
| `CrcDivision.RegisterIsValue` | radio2/src/crc.c:51-59 | The register after any bits is the start value moved up plus the message times x^16: the CRC is affine. |
| `CrcDivision.Divide` | radio2/src/crc.c:51-59 | The remainder the register computes completes a polynomial division: message = quotient times generator plus remainder. |
| `CrcDivision.RemainderIsUnique` | radio2/src/crc.c:51-59 | Any division with a remainder below degree 16 has this remainder. |
| `CrcDivision.MultipleIffNoRemainder` | radio2/src/crc.c:51-59 | A message is a multiple of x^16+x^12+x^5+1 exactly when its remainder is zero. |
| `CrcDivision.AcceptedIffMultiple` | radio2/src/crc.c:72-77 | A packet is accepted exactly when its codeword (check bytes high byte first, first sixteen bits inverted) is a multiple of the generator. |
| `CrcOrder.PowerIsOneIff` | radio2/src/crc.c:14-59 | x^n is 1 modulo the generator exactly when 32767 divides n. |
| `CrcOrder.PowersEqualIff` | radio2/src/crc.c:14-59 | Two powers of x agree exactly when their exponents differ by a multiple of 32767. |
| `CrcDetection.AlteredAcceptedIff` | radio2/src/crc.c:72-77 | A changed packet is accepted exactly when the difference from the accepted one has remainder zero. |
| `CrcDetection.OddDistanceRejected` | radio2/src/crc.c:72-77 | Changing any odd number of bits, payload or check bytes, at any length, is detected. |
| `CrcDetection.TwoFlipsAcceptedIff` | radio2/src/crc.c:72-77 | Two flipped bits go unnoticed exactly when their places differ by a multiple of 32767. |
| `CrcDetection.MinimumDistance` | radio2/src/crc.c:72-77 | Different accepted packets of at most 32767 bits differ in at least four bits. |
| `CrcDetection.RadioPacketsAreFourApart` | radio2/src/radio.h:11 | One, two or three changed bits in a packet of up to RADIO_MTU + 2 bytes are always detected. |
| `CrcDetection.DistanceFourOccurs` | radio2/src/crc.c:72-77 | Four is exact: every accepted packet with a payload has another one four bits away. |
| `CrcDetection.PayloadBurstRejected` | radio2/src/crc.c:51-77 | Any change of the payload within 16 consecutive bits is detected, at any length. |
| `CrcBurst.AlteredAcceptedIffCrc` | radio2/src/crc.c:72-77 | Any alteration escapes exactly when its change of the check bytes is the CRC, without preset, of its change of the payload. |
| `CrcBurst.BurstAcceptedIff` | radio2/src/crc.c:63-77 | An alteration within sixteen consecutive bits of the packet in its buffer (each byte from its highest bit), check bytes included, escapes in exactly twelve cases: the check bytes are stored low byte first. |
| `CrcBurst.SixteenPlacesCanEscape` | radio2/src/crc.c:63-77 | So the usual guarantee for bursts of sixteen bits is false here: for every accepted packet with a payload, an alteration of two neighbouring bytes, given explicitly, is accepted too. |
| `CrcBurst.TwelvePlacesRejected` | radio2/src/crc.c:63-77 | What is guaranteed: every alteration within twelve consecutive bits of the buffer, check bytes included, is rejected, at any length. |
| `CrcBurst.ThirteenPlacesCanEscape` | radio2/src/crc.c:63-77 | Twelve is exact: every accepted packet with a payload has an accepted double that differs within thirteen consecutive bits. |
| `SymbolCodec.PackChunk` | radio/serial/symbols.c:39-50 | Packing up to a chunk of bytes writes exactly the symbols of their value cut into 6 or 7 bit digits, one more than there are bytes, and nothing else. |
| `SymbolCodec.Pack` | radio2/src/symbols.c:38-43 | Writes the encoding of the whole byte string from the given place on and returns its length. |
| `SymbolCodec.UnpackChunk` | radio/serial/symbols.c:64-77 | Unpacking writes exactly the bytes of the 64-bit sum of the decoded symbols, wrap-around included. |
| `SymbolCodec.Unpack` | radio2/src/symbols.c:63-71 | Writes the decoding of the whole string of symbols and returns its length; stops after a chunk that is not full. |
| `SymbolCodec.RoundTrip` | radio2/src/symbols.c:38-71 | Decoding undoes encoding for every byte string, for both symbol sizes, and n bytes take n plus one symbol per started chunk. |
| `SymbolCodec.CanonicalIffRoundTrip` | radio/serial/symbols.c:55-90 | Encoding undoes decoding exactly on the strings of code symbols whose last chunk is not one symbol alone and whose last symbol leaves the unused bits zero. |
| `CodecBits.BitsKeepOrder` | radio2/src/symbols.c:23-33 | Bit by bit: the bits of a chunk go from the bytes into the symbols in order, the lowest first, and bits left over are zero. |
| `CodecBits.BitsComeBack` | radio2/src/symbols.c:47-58 | Unpacking any chunk of code symbols takes the same bits back, whatever the bits left over are. |
| `ShippedTable.LoneSymbolIsLost` | radio2/src/symbols.c:47-48 | A concrete string of symbols that decoding and encoding loses. |
| `SymbolTable.Bits` | radio2/tools/symbols.py:7-12 | The loop counts the bits that are set. |
| `SymbolTable.MatchIffRuns` | radio2/tools/symbols.py:18-18 | The generator's pattern says exactly: starts with a one, ends with a zero, no run of ones or zeros too long. |
| `SymbolTable.LineHasNoLongRuns` | radio2/tools/symbols.py:16-30 | The line bits of any string of symbols that fit the pattern have no run longer than maxones or maxzeros, across symbol boundaries too. |
| `SymbolTable.FindSymbols` | radio2/tools/symbols.py:14-31 | Returns the list of good symbols below 256. |
| `SymbolTable.FoundIs` | radio2/tools/symbols.py:20-31 | That list is ascending and holds every symbol that is not reserved, has the right number of bits and fits the pattern, and no other. |
| `SymbolTable.GoodMeans` | radio2/tools/symbols.py:20-29 | What a good symbol is, in bits: not reserved, the number of its bits within bounds, and no run of ones or zeros on the ten-bit line longer than allowed. |
| `SymbolTable.ChosenAre` | radio2/tools/symbols.py:72-77 | The table is in descending order and keeps the highest good symbols when more than half of the bits may be set, else ascending and the lowest; it leaves one out only when it is full. |
| `SymbolTable.ChosenIs` | radio2/tools/symbols.py:72-77 | After reversing and truncating, the table holds distinct good symbols, all of them if it is not truncated. |
| `SymbolTable.ChosenLineHasNoLongRuns` | radio2/tools/symbols.py:64-79 | For any arguments, every string of symbols of the generated table keeps both run limits on the line. |
| `SymbolTable.BuildDecode` | radio2/tools/symbols.py:48-52 | The decoding table holds the index of each symbol, the mark of the last entry for each reserved symbol, and -1 elsewhere. |
| `SymbolTable.Generate` | radio2/tools/symbols.py:64-79 | For any arguments, the two tables undo each other, and exactly the reserved symbols are marked as such. |
| `SymbolTable.InverseMakesCodec` | radio/serial/symbols.c:13-28 | Tables with 64 or 128 symbols are a valid codec of 6 or 7 bits. |
| `ShippedTable.ShippedIsGenerated` | radio2/src/symbols.i:1-60 | The shipped tables are exactly what the generator makes from the arguments in the file's first line, and undo each other. |
| `ShippedTable.ShippedLink` | radio2/src/symbols.c:17-19 | The shipped symbols meet everything the framing results ask for. |
| `ShippedTable.ReservedOnTheLine` | radio2/src/symbols.i:4-6 | Start and end symbols keep the 3 and 5 bit run limits; the sync symbol is a run of nine zeros and can never be data. |
| `ShippedTable.ShippedLineHasNoLongRuns` | radio2/src/symbols.i:1-60 | Strings of shipped symbols with start and end symbols anywhere among them keep the limits of three ones and five zeros on the line. |
| `Radio.FramesFit` | radio2/src/radio.c:28-28 | Every frame of a packet within RADIO_MTU is at most 1839 bytes, below MAX_FRAME. |
| `Radio.Device.BuildFrame` | radio2/src/radio.c:70-85 | The send buffer holds preamble, sync, encoded payload and CRC, epilogue. |
| `Radio.Device.Send` | radio2/src/radio.c:86-96 | However the driver splits or refuses writes, what goes out is that frame, once and in order, as far as it was taken. |
| `Radio.AcceptsIsMin` | radio2/src/radio.c:88-95 | The frame is complete as soon as the driver has been willing to take that many bytes. |
| `Radio.Device.Wait` | radio2/src/radio.c:100-127 | Consumes the line up to and with the first start symbol, or all of it, or as much as polling allows before the deadline; found exactly in the first case. |
| `Radio.Device.ReadFrame` | radio2/src/radio.c:140-170 | For any split into reads: the buffer holds what comes before the first end symbol and the rest of the read that held it is gone; overrun, dry line and a deadline that drops a partial frame are told apart. |
| `Radio.Device.DecodeBuffer` | radio2/src/radio.c:174-185 | For any buffer: skips to the first valid symbol, decodes, and accepts by CRC; what would not fit the packet buffer is an outcome of its own. |
| `Radio.Device.Recv` | radio2/src/radio.c:131-186 | For any line, split into reads and deadline: the outcome, and how much each call consumed. |
| `Radio.Device.ReceiveAll` | radio2/src/serial.c:77-88 | Waiting and receiving in turn yields the packets of the line, with the places where each call began and ended recorded, until the line is dry, until an outcome was fatal (and only then), or until the deadline has used up the polls between two packets. |
| `Radio.Device.ReceiveSent` | radio2/src/serial.c:77-88 | On the line that back-to-back sending makes, with time enough, the loop reads everything, never ends on a fatal outcome, returns some of the packets in order, and all of them exactly when no read took the whole preamble of the next frame with a frame's first end symbol. |
| `Damage.GotIff` | radio2/src/radio.c:174-184 | For any buffer, radio_recv returns the payload p exactly if it has 1 to 1600 bytes and the buffer decodes to p followed by its CRC. |
| `Damage.NotGotIff` | radio2/src/radio.c:174-184 | Exactly when the other outcomes occur: rejected, the failed assertion on an empty payload, more than 1602 bytes. |
| `Damage.ReceivedIff` | radio2/src/radio.c:131-186 | For any line, radio_recv returns p exactly if an end symbol comes within 1843 bytes and what precedes the first one decodes to p and its CRC. |
| `Damage.DamagedIsRejected` | radio2/src/radio.c:180-184 | A frame whose decoded bytes differ from a sealed packet in one to three bits, or within twelve consecutive places, is rejected: no wrong packet is received for it. |
| `Damage.DamagedOnTheLine` | radio2/src/radio.c:131-186 | The same for radio_recv on a line, for what precedes the first end symbol. |
| `Radio.SymbolsAre` | radio2/src/radio.c:77-82 | The encoded part of a frame never holds a framing symbol and decodes to the payload and its CRC. |
| `Radio.AllReceivedIff` | radio2/src/radio.c:100-186 | Packets of 1..RADIO_MTU bytes sent back to back are received exactly and in order if and only if no read with a frame's first end symbol takes the whole next preamble with it. |
| `Radio.AtMostPreambles` | radio2/src/radio.c:100-186 | On any line, no splitting yields more packets than there are runs of start symbols. |
| `Radio.OnlySent` | radio2/src/radio.c:100-186 | However frames sent back to back are read, and from wherever, the packets received are some of those sent, each at most once and in order. |
| `Radio.StreamFits` | radio2/src/radio.c:180-182 | Wherever reading starts in frames sent back to back, what is decoded never overflows the packet buffer. |
| `EventQueue.Queue.constructor` | radio2/src/queue.c:65-74 | A new queue is empty with room for 1024 events. |
| `EventQueue.Queue.Resize` | radio2/src/queue.c:23-38 | The array doubles or halves by the source's rule and the live events survive. |
| `EventQueue.Queue.Heapify` | radio2/src/queue.c:42-60 | The swap loop sifts the root down and touches nothing else. |
| `EventQueue.Queue.Insert` | radio2/src/queue.c:78-91 | The hole-sifting loop makes the heap's insertion; sizes follow the resizing rule. |
| `EventQueue.Queue.Top` | radio2/src/queue.c:95-99 | The first event, or the null event. |
| `EventQueue.Queue.Pop` | radio2/src/queue.c:103-115 | The first event leaves, or the null event is returned and nothing changes. |
| `EventQueue.SiftUpHeap` | radio2/src/queue.c:84-90 | Sifting up restores the heap order. |
| `EventQueue.SiftDownHeap` | radio2/src/queue.c:42-60 | Sifting down restores the heap order. |
| `EventQueue.InsertedContents` | radio2/src/queue.c:78-91 | Insertion adds exactly one event. |
| `EventQueue.PoppedContents` | radio2/src/queue.c:103-115 | Popping removes exactly the root. |
| `EventQueue.RunIsPriorityRun` | radio2/src/queue.c:78-115 | Every sequence of inserts and pops behaves as a bag from which each pop takes an event of least time. |
| `EventQueue.AnyRunDrains` | radio2/src/queue.c:103-115 | After any operations, draining yields the remaining events in time order and then VTIME_INF. |
| `EventQueue.StoreStepValid` | radio2/src/queue.c:23-38 | Sizes stay powers of two from 1024 to 2^20 with nevents within them; the assertion fails exactly on an insert among 2^20 events. |
| `EventQueue.AmortizedResizing` | radio2/src/queue.c:23-38 | Over any run from a new queue, the events carried by all resizes number at most 512 + 2 inserts + pops. |
| `EventQueue.SpaceIsLinear` | radio2/src/queue.c:23-38 | Through any run the array has 1024 slots or at most five times its events and four. |
| `EventQueue.StoreRunCounts` | radio2/src/queue.c:78-115 | Through any run nevents is the number of events in the heap. |
| `Topo.Index.constructor` | radio2/src/topo.c:15-23 | A new index is empty. |
| `Topo.Index.Insert` | radio2/src/topo.c:27-44 | Probes with wraparound, replaces an equal edge or fills the first free slot; terminates. |
| `Topo.Iterator.constructor` | radio2/src/topo.c:83-89 | The iterator starts at its source's home slot. |
| `Topo.Iterator.Next` | radio2/src/topo.c:93-100 | Returns the remaining entries of its source one by one, then NULL for ever; terminates. |
| `Topo.ProbeEnds` | radio2/src/topo.c:31-38 | A probe through taken slots is shorter than the table, wherever it wraps. |
| `Topo.WriteKeepsPlaces` | radio2/src/topo.c:31-40 | Insertion keeps every edge reachable by probing from its home, without duplicates. |
| `Topo.InsertionRepresents` | radio2/src/topo.c:27-44 | One insertion sets one edge of the set of edges, leaves the counter at the number of edges and self-loops, and keeps the largest id exact. |
| `Topo.EdgesAre` | radio2/src/topo.c:32-36 | The edges are those of the entries that join two nodes, each with the probability given last. |
| `Topo.CountersAreExact` | radio2/src/topo.c:40-43 | After any inserts, entries is the number of different edges plus the number of self-loops inserted, and max_id is the largest id in any entry. |
| `Topo.LargestIs` | radio2/src/topo.c:42-43 | That largest id bounds every id inserted and is one of them. |
| `Topo.InsertionsFailIff` | radio2/src/topo.c:28-28 | The assertion fails during a sequence of inserts exactly when all of them but the last make up 9000, edges counted once and self-loops every time. |
| `Topo.IterationIsExact` | radio2/src/topo.c:83-100 | After any inserts, iterating on src returns each inserted edge from src exactly once with its latest probability. |
| `TopoLinks.LinksAreTheEdges` | radio2/src/sim.c:79-94 | The network the simulator spreads packets on is exactly the set of inserted edges, without loops or unknown nodes. |
| `Neigh.NeighTable.Insert` | radio2/src/neigh.c:19-39 | The loop finds the id and replaces or keeps its entry by stratum, else appends. |
| `Neigh.NeighIter.Next` | radio2/src/neigh.c:71-78 | Returns the entries not marked as expired one by one, then NULL. |
| `Neigh.InsertedLookup` | radio2/src/neigh.c:24-38 | Seen by id, insertion leaves all other ids; a report at the same or a lower stratum replaces what is held, one at INF replaces all but a confirmed neighbour, nothing else does; ids stay unique. |
| `Neigh.InsertedFailsIff` | radio2/src/neigh.c:34-34 | The assertion fails exactly when 50 other ids are listed. |
| `Neigh.StratumOneStays` | radio2/src/neigh.c:26-26 | No report of stratum one or more demotes a confirmed neighbour. |
| `Node.NodeObject.constructor` | radio2/src/node.c:28-32 | The first half of node_init: id, asleep, an empty table. |
| `Node.NodeObject.Start` | radio2/src/node.c:34-38 | The second half of node_init: the options decide the status and the timer that is asked for. |
| `Node.NodeObject.SetStatus` | radio2/src/node.c:51-62 | Sets the status and asks for a timer, at once for the root, never for a sleeper. |
| `Node.NodeObject.MakeBeacon` | radio2/src/node.c:121-153 | The beacon lists the node at stratum 0 and then announced neighbours in table order while the buffer has room. |
| `Node.NodeObject.LooksForSelf` | radio2/src/node.c:192-199 | Whether the beacon lists this node at stratum 1 or INF. |
| `Node.NodeObject.RecordAll` | radio2/src/node.c:213-225 | Every listed node but this one and those at INF enters the table one stratum further out. |
| `Node.NodeObject.ReceiveBeacon` | radio2/src/node.c:157-233 | The handler's new state and callbacks, with waking up, the one-way case and the recording loop. |
| `Node.NodeObject.OnTimer` | radio2/src/node.c:345-367 | Wakes up when due, moves, sends a beacon and asks for the next timer. |
| `Node.NodeObject.ForwardData` | radio2/src/node.c:246-257 | Sends the packet on with its next hop, or drops it. |
| `Node.NodeObject.ReceiveData` | radio2/src/node.c:261-276 | Forwards only what is addressed to this hop and not yet at its destination. |
| `Node.NodeObject.Receive` | radio2/src/node.c:311-331 | Dispatch on beacons and data. |
| `Node.NodeObject.RouteTest` | radio2/src/node.c:371-386 | A probe for node 0. |
| `Node.ReceiveAdvances` | radio2/src/node.c:165-188 | Receiving moves the status only forward, from asleep only on a beacon that is not from a waking node, with the wake time set. |
| `Node.TimerAdvances` | radio2/src/node.c:353-355 | A timer moves the status only from WAKING to AWAKE, and exactly when the wake time has come. |
| `Node.ReceiveCallbacks` | radio2/src/node.c:311-331 | A beacon asks for at most two timers, all later; data is sent on at most once, at once. |
| `Node.TimerCallbacks` | radio2/src/node.c:345-367 | A timer sends one beacon at once and asks for one or two later timers. |
| `NodeLaws.BeaconContents` | radio2/src/node.c:121-153 | A beacon lists its sender and then exactly the live entries at stratum 1, 2 or 10 (INF), in table order, all of them unless it is full with thirteen entries. |
| `NodeLaws.BeaconLists` | radio2/src/node.c:140-148 | In a beacon with room left every such entry is listed. |
| `NodeLaws.SleeperWakesIff` | radio2/src/node.c:165-188 | An ASLEEP node becomes WAKING exactly on a beacon whose sender is not WAKING, due 2.5 s later, and asks for two timers, one within the jitter and one a second ahead; on the others nothing changes. |
| `NodeLaws.UpIsUnmoved` | radio2/src/node.c:165-188 | A node that is not ASLEEP changes nothing but its table on a beacon and asks for nothing. |
| `NodeLaws.TimerFires` | radio2/src/node.c:345-367 | A WAKING node that is due gets up and asks for a timer; every node then sends its beacon with the new status and asks for the next timer. |
| `NodeLaws.StartsAs` | radio2/src/node.c:28-39 | Which node starts as ROOT, AWAKE or ASLEEP, and with which timer. |
| `NodeLaws.InsertAllIsLowest` | radio2/src/node.c:213-225 | After a beacon that lists its receiver, the table holds for every other node the lowest of the stratum it held and those reported, one further out; INF reports and the node itself are left out. |
| `NodeLaws.StratumWraps` | radio2/src/node.c:216-216 | A stratum is a byte: 255 plus one is 0. |
| `NodeLaws.OneSidedIsInf` | radio2/src/node.c:201-211 | A beacon that does not list its receiver at stratum 1 or INF puts the sender at INF, unless it is held at stratum 0 or 1, and changes no other id. |
| `NodeLaws.SenderIsListed` | radio2/src/node.c:190-225 | After a beacon that is heeded its sender is listed: at stratum 1 if it hears the receiver, else at 1 or INF. |
| `NodeLaws.OverflowsIff` | radio2/src/node.c:213-225 | Recording a beacon overflows the table exactly if the ids held and the new ones number more than fifty. |
| `NodeLaws.BeaconOverflowsIff` | radio2/src/neigh.c:34-34 | For every node and beacon, exactly when the table assertion stops the program. |
| `NodeLaws.DataGoesOn` | radio2/src/node.c:246-276 | Data is sent on exactly if the node is its hop, is not its destination and has a stratum-1 neighbour that is the destination or nearer; its next hop is such a neighbour and nothing else in it but the ttl changes. |
| `NodeLaws.ProbeGoesOut` | radio2/src/node.c:371-386 | A route test sends such a packet to node 0 at the origin exactly if a neighbour helps. |
| `Mesh.NextInv` | radio2/src/node.c:157-233 | Every delivery, late, repeated or out of order, and every timer keeps the joint invariant of tables and beacons in the air. |
| `Mesh.SeenSelfMeansHeard` | radio2/src/node.c:192-199 | A beacon that lists its receiver proves a bidirectional link. |
| `Mesh.StrataTellTheTruth` | radio2/src/node.c:192-225 | In every reachable state ids are unique and not the node's own, strata are 1, 2, 3 or INF, stratum 1 means edges both ways, INF means heard directly, and stratum k means a walk of exactly k bidirectional links. |
| `Mesh.NoTableOverflows` | radio2/src/neigh.c:34-34 | The table assertion cannot fail when each node's in-neighbours and 3-hop bidirectional ball number at most 50. |
| `Mesh.StatusNeverGoesBack` | radio2/src/node.c:165-188 | Over any run, status only moves ASLEEP, WAKING, AWAKE or stays ROOT. |
| `Mesh.AwakeTakesTime` | radio2/src/node.c:174-188 | A node at directed distance d from the nodes awake at the start is never AWAKE before d times 2.5 s. |
| `Mesh.ListedNodesExist` | radio2/src/sim.c:30-38 | In every reachable state a table lists only nodes that exist, so the route test never indexes beyond the nodes. |
| `MeshLaws.SleeperGetsUp` | radio2/src/node.c:165-188 | Over any run, a sleeper reached by a beacon of a node that is not WAKING is AWAKE, and stays so, once a timer of its has fired 2.5 s later or after. |
| `MeshLaws.ListedConfirms` | radio2/src/node.c:192-225 | If b lists a at stratum 1 or INF and fires with room in its beacon, then whenever that beacon is delivered to a and heeded, a holds b at stratum 1. |
| `MeshLaws.TwoBeaconsConfirm` | radio2/src/node.c:157-233 | The handshake: b heeds a beacon of a and fires next with room in its beacon; once that reaches a, a holds b as a confirmed neighbour. |
| `Routing.ChooseNeighbour` | radio2/src/node.c:80-92 | The loop with its running minimum and early exit makes the choice. |
| `Routing.ChooseMeaning` | radio2/src/node.c:80-92 | The choice is the destination if it is listed within maxstrat, else a listed node nearest to it and strictly closer than this node; none exactly when there is no such entry. |
| `Routing.Dist2Is` | radio2/src/node.c:74-74 | The distance the choice goes by is the squared distance over all three coordinates, symmetric, zero only between equal places. |
| `Routing.RouteMfr` | radio2/src/node.c:72-101 | The recursive search computes the route; it terminates, with maxstrat falling at each level. |
| `Routing.RouteIsChain` | radio2/src/node.c:72-101 | For every maxstrat: the answer is hop exactly if the chain of targets from the destination, each the first IsChoice for the one before within the falling maxstrat, ends at a stratum-1 entry with that id; there is none exactly if the chain reaches a target for which no entry is eligible. |
| `Routing.RouteTwoStrata` | radio2/src/node.c:96-96 | A destination listed two strata away gets an answer when some direct neighbour is nearer to it than the node is, and the answer is such a neighbour. |
| `Routing.RouteEndsAt` | radio2/src/node.c:94-99 | Any answer is a listed stratum-1 neighbour that is the target of the last level or strictly closer to it. |
| `Routing.EndsAtNeighbour` | radio2/src/node.c:94-99 | ... and that last target is the destination or a listed node. |
| `Routing.RouteDirect` | radio2/src/node.c:72-101 | With maxstrat 1 the search fails only if no neighbour is the destination or closer. |
| `Routing.HopGetsCloser` | radio2/src/sim.c:32-34 | With true tables each hop strictly decreases the distance until it jumps to the destination. |
| `Routing.PathVisitsOnce` | radio2/src/sim.c:30-38 | No walk, whether it arrives or gets stuck, visits a node twice. |
| `Routing.PathIsWalk` | radio2/src/sim.c:30-38 | The path is what the hops do: it arrives exactly when the walk does, after as many hops, and else ends where there is no next hop. |
| `Routing.WalkIsShort` | radio2/src/sim.c:30-38 | A walk that arrives takes fewer hops than there are nodes. |
| `Routing.RouteTestOne` | radio2/src/sim.c:30-38 | The test loop computes the number of hops within its limit, for any tables that list existing nodes, with stale locations too. |
| `Routing.CutoffNeverDecides` | radio2/src/sim.c:32-37 | With at most 100 nodes the 99-hop limit never decides the answer. |
| `Packet.NewBalanced` | radio2/src/packet.c:10-25 | A new packet has one reference, its creator's. |
| `Packet.CloneBalanced` | radio2/src/packet.c:36-40 | Cloning keeps counts equal to holders. |
| `Packet.FreeBalanced` | radio2/src/packet.c:44-51 | Freeing keeps counts equal to holders and frees the packet exactly with the last one. |
| `Packet.NothingHeld` | radio2/src/packet.c:44-51 | With no holder left, no packet is allocated. |
| `Sim.Simulator.Setup` | radio2/src/sim.c:138-143 | Every node is initialised in turn and exactly the timers it asks for are queued. |
| `Sim.Simulator.Broadcast` | radio2/src/sim.c:79-94 | One event per link in order, with its own propagation delay and its own reference, as far as it comes before the end. |
| `Sim.Simulator.RequestTimer` | radio2/src/sim.c:95-103 | One timer event with a small delay, if before the end. |
| `Sim.Simulator.SendPacket` | radio2/src/node.c:237-242 | A packet is created, spread and released; references balance. |
| `Sim.Simulator.HandleTimer` | radio2/src/node.c:345-367 | Handling a timer is one step of the network and queues exactly what the handler asks for, all of it later. |
| `Sim.Simulator.HandleBeacon` | radio2/src/node.c:157-233 | Handling a beacon is one delivery of the network and queues exactly what the handler asks for; it stops only on table overflow. |
| `Sim.Simulator.HandleData` | radio2/src/node.c:261-276 | Handling data changes no node and queues exactly the forwarded packet. |
| `Sim.Simulator.HandlePacket` | radio2/src/sim.c:159-161 | node_receive and then packet_free: exactly the events the handler asks for are queued, and the references balance. |
| `Sim.Simulator.RouteTests` | radio2/src/sim.c:153-155 | Every node's probe is queued, stamped with the tick; nothing but data is added. |
| `Sim.Simulator.Round` | radio2/src/sim.c:148-165 | One round is RoundIs: an earliest event is taken, the tick moves by one second and the probes are queued if it is behind, the event is handled by one enabled network step (none for data), exactly what the handler asks for is queued, other packets are untouched; the termination measure falls. A round that aborts took its step. |
| `Sim.HandlingLightens` | radio2/src/sim.c:148-165 | Replacing an event by fewer than the base of later ones lowers the total weight of the queue. |
| `Sim.Simulator.Run` | radio2/src/sim.c:148-166 | The loop is a chain of such rounds from the state it starts in to the one it ends in; it ends with an empty queue and every packet freed, unless a table overflows in its last step. |
| `Sim.Simulate` | radio2/src/sim.c:108-180 | For every topology, end time and random choice the simulation terminates and is a chain of rounds that starts with the timers the nodes ask for; every queued event is handled exactly once; the nodes are the state after the enabled steps of those rounds, one for each timer and beacon, in time order, also when it aborts; no packet is left; and there is no neighbour-table abort when neighbourhoods are small. |
| `Sim.EventsConserved` | radio2/src/sim.c:148-165 | Over any chain of rounds, the events queued are exactly those handled and those still queued. |
| `Waking.TimersGoOn` | radio2/src/sim.c:95-103 | In a run that ends by itself, where a timer of a node fires the next one fires between 0.5 and 1.501 s later, if that is before the end. |
| `Waking.BeaconsArrive` | radio2/src/sim.c:79-94 | Each beacon that a timer sends is delivered over every link of its node within 0.199 s. |
| `Waking.DataArrives` | radio2/src/node.c:246-276 | Data that reaches its hop on the way, where a neighbour helps, arrives on every link with that neighbour as its next hop. |
| `Waking.ProbesArrive` | radio2/src/sim.c:153-155 | At each tick every node with a neighbour that helps sends a probe for node 0, which arrives on all its links. |
| `Waking.WaveArrives` | radio2/src/sim.c:148-166 | A node d links away from one that is up at the start gets up at a timer that fires before 1.501 + 4.2 d seconds, if the run lasts that long. |
| `Waking.SimulateAll` | radio2/src/sim.c:108-180 | So at the end of a simulation that no table overflow stops, every node that can be reached in the time is up; no overflow stops it when neighbourhoods are small. |
| `SendQueue.StepKeeps` | radio/serial/queue.c:73-173 | Every statement of every thread, measuring included, keeps the invariant of list, locks, counts and history. |
| `SendQueue.NeverCrashes` | radio/serial/queue.c:73-151 | No interleaving follows a null or freed pointer or frees a cell twice. |
| `SendQueue.SentInOrder` | radio/serial/queue.c:122-151 | In every interleaving the packets sent, the one in hand and the linked list are exactly the packets enqueued, in order. |
| `SendQueue.EnqueuesWhatWasAsked` | radio/serial/queue.c:73-95 | Each call enqueues the data it was given, by exactly one statement. |
| `SendCalls.EachCallEnqueuesOnce` | radio/serial/queue.c:73-95 | Over any run, what a thread has put into the list, and then what its unfinished call owes, is what its calls asked to send, each packet once and in order. |
| `SendCalls.ReturnedMeansEnqueued` | radio/serial/queue.c:73-95 | A thread whose calls have returned has had all its packets put into the list. |
| `SendCalls.EnqueuedIsLog` | radio/serial/queue.c:83-93 | What was enqueued is that log of all threads, in order. |
| `SendCalls.CallsFromStart` | radio/serial/queue.c:73-95 | The packets enqueued and the calls still to enqueue theirs number as many as the calls made. |
| `SendCalls.SendCompletes` | radio/serial/queue.c:73-95 | With the send mutex free, a call and four or five statements of its own thread put the packet at the end of the list and return, waking a sender that sleeps on the empty list. |
| `SendCalls.CallIsSent` | radio/serial/queue.c:73-151 | From rest, the sender's own statements then send that packet as the last of all. |
| `SendCalls.SleepsWhenEmpty` | radio/serial/queue.c:126-133 | With an empty list the sender is asleep after two statements, holding no mutex, and does not run by itself. |
| `SendCalls.SleeperSends` | radio/serial/queue.c:73-151 | A call wakes a sleeping sender, and nine statements of the sender send the packet. |
| `SendCalls.MeasureCompletes` | radio/serial/queue.c:101-117 | With the send mutex free, a call of queue_send_get_size returns at once on an empty list and else comes to return the length. |
| `SendCalls.BurstCompletes` | radio/serial/queue.c:155-173 | A burst of k packets is received and handled one by one with the holdoff mutex held, which is then free again. |
| `SendQueue.HeadNullIffTailNull` | radio/serial/queue.c:83-93 | While the send mutex is free, head and tail are both NULL or neither is. |
| `SendQueue.NeverSleepsUnsignalled` | radio/serial/queue.c:130-132 | The sender sleeps on a non-empty list only until a thread that holds the mutex signals it. |
| `SendQueue.SendingExcludesReceiving` | radio/serial/queue.c:140-144 | Sending never overlaps a receive burst. |
| `SendQueue.NoDeadlock` | radio/serial/queue.c:122-173 | Whenever a thread is blocked on a lock, another one that holds a lock can run, even if the handler enqueues. |
| `SendQueue.SectionEnds` | radio/serial/queue.c:83-139 | The holder of the send mutex is at most four of its own statements from unlocking, or as many more as it has cells to count, and no other thread delays it. |
| `SendQueue.SenderDrains` | radio/serial/queue.c:126-150 | From rest, nine statements of the sender per packet send everything that was enqueued. |
| `SendQueue.SizeIsExact` | radio/serial/queue.c:101-117 | In every interleaving queue_send_get_size returns the number of packets in the list at the moment it decides, by the unlocked look at the head or by counting under the mutex. |
| `SendQueue.GetSize` | radio/serial/queue.c:105-113 | The counting loop counts the cells of the list it is given. |

## Left out

- Serial port setup, the wall clock, command lines, logging and all printing: input and output. A deadline is how many polls succeed before it.
- The link between devices loses and alters nothing in the framing results; what the CRC catches is stated separately.
- The source does not check that what it decodes fits its packet buffer; where it does not fit, the outcome here is Overflow and nothing is said about what the program does next.
- The flood functions (radio2/src/node.c:280-307) are unfinished and do not parse; packets of unknown type are ignored by the source and do not arise here.
- neigh_table_cull and expiry: no active code calls it, so entries never expire here.
- The hop limit ttl is decremented and never tested, so nothing is claimed about it.
- Virtual locations are recomputed by floating-point descent; here a location is any triple of unbounded integers and may become any other at a timer, so overflow in loc_dist2 is not modelled.
- Random delays are any integer in the range of the floating-point expression; the range's ends are included.
- Node ids, times, counters and lengths are unbounded, so the wrap-around of 16-bit ids and of the clock is not modelled; the 64-bit sum of the symbol codec is.
- Link probabilities are stored and returned by the index; the simulator never uses them.
- The byte layout of packets and the `extra` pointer of callbacks.
- Sim.Simulator: uses the event queue as a bag with an earliest event, which is what EventQueue proves of the heap; the abort on 2^20 queued events is stated there and not repeated in the loop.
- Sim.Simulator.HandleTimer: the printed route statistics (radio2/src/sim.c:40-57) are left out; the test walk itself is in Routing.
- Node.NodeObject.Receive: the modulus check on a beacon's length is met by construction, since beacons are values.
- Radio.Device.ReceiveAll: handling of packets and timers between two receptions (radio2/src/serial.c:81-91) is the node's, not the link's.
- SendQueue.SizeIsExact: the look at the head without the mutex (radio/serial/queue.c:103) is taken as one atomic read.
- The first version's beacon code, the topology generators, plotting and device scripts, the user interfaces.
