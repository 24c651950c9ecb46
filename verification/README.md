# esp-protocols, verified

A Dafny model of the protocol logic in esp-protocols, the ESP-IDF networking components, and proofs of what that
logic promises. The main results are statements about all inputs or all runs:

* **mDNS cache** (`MdnsCache`, `Cache*`). The cache is a heap of hosts, services, subtypes and addresses with a list of
  expiry nodes that point into it. Every operation, including every way in which memory can run out in the middle,
  keeps one invariant, and is specified on a flat view: a set of rows, one for each record, and a set of pending
  reports. Updating a record, moving a service to another host, goodbye, expiry, trimming and reporting to the browses
  are each shown to change exactly the rows and reports they should, and over whole histories (`CacheHistory`) a record
  lives until its deadline and not longer (`CacheLifetimes`: for its time to live), whatever letters its names come in
  (`CacheContracts`), and what changed is told to exactly the browses that ask for it (`CacheNews`).
* **Transmit queue and probing** (`TxQueue`, `ProbeMachine`, `ProbedServices`, `SendTiming`, `AnnounceTiming`,
  `HostProbing`, `PortPaths`, `PortLaws`, `TxScheduler`).
  Over every sequence of events the queue and the pending actions agree. A port goes from probing to announcing only after
  its latest probe was sent three times, more than 250 ms apart; and whichever way it takes, an open port announces only
  after such a probe for the host since it was opened and the host got its name, if no probe lacked memory. What a port
  asks for stays asked for until the probe completes or a listed reason comes up, and no packet is sent before its time.
* **Browses** (`BrowseLifecycle`). Over every interleaving of the API and the service task no action is left for a
  browse that is gone, and names are unique exactly up to 64 characters.
* **DNS names** (`DnsReader`, `DnsChains`, `DnsGrammar`, `DnsWriter`, `DnsRoundTrip`, `DnsUnsettled`, `DnsNames`,
  `DnsPackets`, `DnsMistakes`). Reading terminates on every packet; which bytes are a name and what it is made of is
  stated exactly, in both directions; and a compressed name reads back exactly under the condition that
  the writer should check. In a finished packet, with its counts and lengths filled in afterwards, such a name parses to
  the parts it was made of.
* **EPPP links** (`EpppUart`, `EpppHeaders`, `EpppSpi`). The buffered deframer refines a scanner that looks at one byte
  at a time, for every way of cutting the stream into reads. The two ends of the SPI link stay in lockstep, lose nothing and deliver
  everything in bounded time.
* **Codecs** (`TxtRecord`, `SrvTieBreak`, `WebSocketFrames`, `DnsQuery`, `DnsResponse`, `DnsReplies`). Round trips with
  their exact conditions, a total order on colliding services, and reassembly of fragmented messages.

State that the C code updates in place is a class with the same fields, and each method is proved against a function on
values or against the flat view. Allocation, time and random numbers are parameters; where an operation allocates in
several places, any of them may fail unless the cache was made with ample memory. `Common`, `CaseFold` and `Octets` hold
what several modules share.

## Where the code does less than it promises

Each of these is kept as the code has it, with the input for which it fails and the exact condition under which it works.

* A UART frame of 1500 bytes that starts in the middle of the receive buffer never fits: the buffer is laid out for a
  header of 4 bytes and the header has 5 (`PayloadBoundDecides`, `PendingFitsExactly`, `MaximumPayloadStalls`). The buffer
  of the sender is one byte short in the same way (`Transmit`).
* The DNS writer points to names without looking at the flags of the name it found, so a goodbye for an instance called
  like its subtype names something else, and into the name it is writing, so a host called local points to itself
  (`PlainRoundTrip`, `GoodbyeIsMistaken`, `LocalHostFirst`).
* Host names of 64 bytes are accepted, but a label has at most 63, so the names written with them cannot be read
  (`FullNameRoundTrip`, `LongestNameIsNotHeard`).
* Browse names beyond 64 characters are stored cut off and compared whole (`LengthsDecide`, `LongNameMissed`).
* TXT lists with a repeated item compare equal to lists that differ (`TxtEqualIsPermutation`, `RepeatedItemHidesChange`).
* TXT items with an improper key or more than 255 bytes do not read back (`RoundTripExactly`).
* A port whose probe lacks memory may announce without having probed for the host (`MemoryDecides`, `StarvedAnnounces`).
  A later probe for services alone is dropped with its last service, and the port announces at once (`LaterProbeIsCut`).
* Whatever a port sends while it announces counts as an announcement and is sent again, so with a reply in between an
  announcement is sent fewer than three times (`AnnouncementIsCut`; alone it is sent three times, `ThreeAnnouncements`).
* A list of TXT items with an empty key, which a string that starts with a zero byte gives, is never equal to itself, so
  it is reported as changed each time it is received (`EmptyKeyIsNeverEqual`).
* A DNS query that does not fit its buffer is written past its end, with or without an error (`OverrunsExactly`,
  `ErrorExactly`).
* The question in a DNS query is for the host name only if each of its labels has 1 to 63 bytes. Otherwise the end of the
  question is not found, or, with labels of 257 bytes and more, it is silently a question for another name
  (`QuestionIsFor`, `QueryEndIsFound`, `LongLabelsAskForAnother`).

## Model

| member | source | states |
|---|---|---|
| `EpppUart.FramesOfEncode` | components/eppp_link/eppp_uart.c:39-57 | a frame that the sender can produce, followed by any bytes, is scanned as exactly that frame and then whatever the rest scans as |
| `EpppUart.SkipMagicFree` | components/eppp_link/eppp_uart.c:185-206 | bytes without the magic byte in front of a stream change nothing in what is scanned from it |
| `EpppUart.RecoverKeepsFrames` | components/eppp_link/eppp_uart.c:185-206 | after a bad header, jumping to the next magic byte or dropping the buffer loses no frame that a scanner advancing one byte at a time would find, whatever arrives later |
| `EpppUart.DeliverKeepsFrames` | components/eppp_link/eppp_uart.c:155-181 | delivering the head packet and compacting conserves delivered frames plus frames still to come, for every continuation of the stream |
| `EpppUart.AdvanceLeavesRoom` | components/eppp_link/eppp_uart.c:171-181 | after bytes were taken, what is left stands at the front of the buffer or has room for 1504 more bytes behind it |
| `EpppUart.DrainRefines` | components/eppp_link/eppp_uart.c:125-207 | the whole loop of process_packet conserves delivered frames plus frames still to come, for every continuation of the stream |
| `EpppUart.RunRefines` | components/eppp_link/eppp_uart.c:102-208 | over any sequence of reads: delivered frames, followed by the frames in the buffer and what is still to come, are the frames of the whole stream |
| `EpppUart.RunSettles` | components/eppp_link/eppp_uart.c:102-208 | after every read the deframer waits: no complete frame and no bad header is left, the data start in the first half and end inside the buffer |
| `EpppUart.DeliveredIsScanned` | components/eppp_link/eppp_uart.c:102-208 | for every byte stream and every way of splitting it into reads, exactly the frames of the byte-at-a-time scanner are delivered, in order; what that scanner takes for a frame is what Rejected, Awaited and Accepted say byte by byte |
| `EpppUart.SentIsDelivered` | components/eppp_link/eppp_uart.c:39-208 | frames sent after magic-free garbage are received exactly and in order however the stream is cut into reads |
| `EpppUart.PendingFitsExactly` | components/eppp_link/eppp_uart.c:24-36 | at every moment, and whatever arrived: a frame in progress ends inside the buffer if and only if it is not a maximum payload that starts in the exact middle of the buffer (HEADER_SIZE is 4 but the header takes 5 bytes); when it fits there is room to read on |
| `EpppUart.PayloadBoundDecides` | components/eppp_link/eppp_uart.c:24-36 | the bound that a sender can keep: receiving frames of at most n bytes stalls under no garbage in front and no way of cutting the stream if and only if n is below the maximum payload |
| `EpppUart.MaximumPayloadStalls` | components/eppp_link/eppp_uart.c:24-36 | the failing family, for all payloads: a 1499-byte frame and then a 1500-byte frame fill the buffer with an incomplete packet |
| `EpppUart.StallIsForever` | components/eppp_link/eppp_uart.c:109-123 | a full buffer with an incomplete packet never changes again, since every later read asks for 0 bytes |
| `EpppUart.SendableFramesNeverStall` | components/eppp_link/eppp_uart.c:39-57 | at every moment of receiving frames that fit the sender's own buffer, the frame in progress fits and there is room to read on |
| `EpppUart.Sender.WriteHeader` | components/eppp_link/eppp_uart.c:39-57 | the first five bytes become the header of the frame, all others are unchanged |
| `EpppUart.Sender.CopyPayload` | components/eppp_link/eppp_uart.c:39-57 | the payload stands behind the header, all other bytes are unchanged |
| `EpppUart.Sender.Transmit` | components/eppp_link/eppp_uart.c:39-57 | for every payload up to the MTU: the wire grows by the encoding of the frame that the scanner lemmas invert, what earlier calls wrote is unchanged, and that encoding lies in the output buffer and, for the largest payload and no other, reaches past its end |
| `EpppUart.Deframer.constructor` | components/eppp_link/eppp_uart.c:104-106 | a new deframer is in step with the empty stream |
| `EpppUart.Deframer.FindMagic` | components/eppp_link/eppp_uart.c:186-187 | the index found is the first magic byte from there on, or the end of the data |
| `EpppUart.Deframer.Compact` | components/eppp_link/eppp_uart.c:171-181 | moving the data to the front keeps them and leaves the start in the first half |
| `EpppUart.Deframer.Resync` | components/eppp_link/eppp_uart.c:185-206 | the new buffer is the recovery step that RecoverKeepsFrames proves lossless |
| `EpppUart.Deframer.TakePacket` | components/eppp_link/eppp_uart.c:155-181 | the new buffer and the delivered frames are the delivery step that DeliverKeepsFrames proves lossless |
| `EpppUart.Deframer.DrainBuffer` | components/eppp_link/eppp_uart.c:125-207 | the in-place loop ends in the drained state of the specification, which waits, and of which DeliveredIsScanned and EpppHeaders.DeliveredStand say what it delivered |
| `EpppUart.Deframer.ProcessPacket` | components/eppp_link/eppp_uart.c:102-208 | after every call everything delivered so far is what the byte-at-a-time scanner finds in everything read so far |
| `EpppHeaders.Rejected` | components/eppp_link/eppp_uart.c:125-149 | byte by byte: five bytes that are not the magic byte, any channel, the exclusive or of the two bytes of the size and a size of at most 1500 are no header, and cost the scanner exactly one byte |
| `EpppHeaders.Awaited` | components/eppp_link/eppp_uart.c:151-155 | behind a header a frame that is not complete is waited for |
| `EpppHeaders.Accepted` | components/eppp_link/eppp_uart.c:155-170 | a complete frame behind a header is delivered with its channel and payload, and scanning goes on right behind it |
| `EpppHeaders.ScannedStand` | components/eppp_link/eppp_uart.c:125-207 | every frame that is scanned stands in the stream behind a header that passes the three tests, in order, and no byte belongs to two of them |
| `EpppHeaders.DeliveredStand` | components/eppp_link/eppp_uart.c:102-208 | so does every frame that the deframer delivers, for every stream and every way of cutting it into reads |
| `EpppSpi.StepKeepsInv` | components/eppp_link/eppp_spi.c:317-409 | every step of either end, in any order, keeps: equal transaction sizes on both sides, what is on the wire fits them, and delivered plus in-flight packets are the packets sent, in both directions |
| `EpppSpi.EveryRun` | components/eppp_link/eppp_spi.c:317-409 | after every run from the start both ends hold the same transaction size, it fits the DMA buffers, the payload on the wire never exceeds what the peer clocks, and nothing is lost, duplicated or reordered in either direction |
| `EpppSpi.RunKeepsInv` | components/eppp_link/eppp_spi.c:317-409 | the lockstep invariant is kept by every run, from any state that satisfies it |
| `EpppSpi.RefillKeeps` | components/eppp_link/eppp_spi.c:365-370 | skipping interrupt signals to find the next packet neither loses nor reorders queued packets |
| `EpppSpi.LoadKeeps` | components/eppp_link/eppp_spi.c:354-376 | filling the outgoing buffer conserves the packets in flight and announces the size of the one that goes next, also in a test transaction |
| `EpppSpi.FinishKeeps` | components/eppp_link/eppp_spi.c:395-408 | the end of a transaction moves one payload from in flight to delivered, and both ends compute the same next size |
| `EpppSpi.AgreedSize` | components/eppp_link/eppp_spi.c:395-408 | after every transaction of every run the size is not below either announcement, equals one of them, and is 0 exactly when neither end holds a packet, and a master with nothing to do then waits unless it was asked to read |
| `EpppSpi.LoadedExactly` | components/eppp_link/eppp_spi.c:354-376 | what goes out: the waiting packet exactly when it fits the agreed size and it is no test, and otherwise nothing, with the size of the packet that waits then announced |
| `EpppSpi.RefillExactly` | components/eppp_link/eppp_spi.c:365-370 | the next packet is the first in the queue that is no signal, and everything up to it is taken |
| `EpppSpi.SignalReadsTwice` | components/eppp_link/eppp_spi.c:335-376 | an interrupt makes an idle master exchange twice: a first transaction without data, in which the sizes are announced, and then one more before it may wait again |
| `EpppSpi.HeldBackOnce` | components/eppp_link/eppp_spi.c:354-376 | a packet that had to wait for a bigger transaction is sent by the very next exchange that is not a test, on either side, in every run |
| `EpppSpi.LoadMakesProgress` | components/eppp_link/eppp_spi.c:354-376 | every exchange that is not a test leaves an end with nothing to do or with strictly less to do |
| `EpppSpi.RunWorks` | components/eppp_link/eppp_spi.c:317-409 | over any run in which one end queues nothing new, its work drops by the number of its exchanges that are not tests, or to zero |
| `EpppSpi.EverythingIsDelivered` | components/eppp_link/eppp_spi.c:317-409 | once an end stops queueing, a bounded number of exchanges delivers everything it ever queued, in order, whatever the other end does |
| `EpppSpi.FragmentsReassemble` | components/eppp_link/eppp_spi.c:72-106 | the pieces of a buffer join to the buffer, none exceeds the maximum payload, all but the last have it, and none is empty unless the buffer is |
| `EpppSpi.Handle.constructor` | components/eppp_link/eppp_spi.c:437-475 | a new handle is the initial endpoint of every run |
| `EpppSpi.Handle.Transmit` | components/eppp_link/eppp_spi.c:72-106 | the queue grows by the first n pieces in order; all of them exactly when it succeeds, and it fails only because memory or the queue has run out |
| `EpppSpi.Handle.TakeNext` | components/eppp_link/eppp_spi.c:365-370 | the loop over the queue takes what the specification that RefillKeeps is about takes |
| `EpppSpi.Handle.Prepare` | components/eppp_link/eppp_spi.c:335-376 | what goes out is the load step of the specification, after waiting on the master and without on the slave |
| `EpppSpi.Handle.Complete` | components/eppp_link/eppp_spi.c:395-408 | the new state is the finishing step of the specification, so sizes stay agreed and payloads conserved |
| `EpppSpi.Exchange` | components/eppp_link/eppp_spi.c:317-409 | one transaction of two connected handles is an enabled run of the link, keeps its invariant and leaves both with the same transaction size |
| `DnsReader.DecodeTouch` | components/mdns/mdns_utils.c:21-93 | reading a name depends on exactly the bytes that it touches: packets that agree on these give the same labels and the same end |
| `DnsReader.CaseEqualDecides` | components/mdns/mdns_send.c:719-731 | two strings compare equal exactly if they have the same length and at each place the same byte or the two cases of one ASCII letter |
| `DnsChains.ReadExactly` | components/mdns/mdns_utils.c:21-93 | for every packet: a name can be read if and only if a chain of at most 17 runs stands there, each of labels of 1 to 63 bytes that ends in a zero byte, at the end of the packet or in a pointer to a place before the run it ends, and then its labels are those of the chain |
| `DnsChains.ChainDecodes` | components/mdns/mdns_utils.c:21-93 | such a chain is read label by label, and reading goes on behind its first run |
| `DnsChains.DecodedIsChain` | components/mdns/mdns_utils.c:21-93 | whatever is read stands there as such a chain |
| `DnsGrammar.NamesExactly` | components/mdns/mdns_utils.c:21-130 | for all labels, over the bytes of the words and not the functions of the reader: they are a valid name if and only if one to three labels that are not sub, the last one local or arpa, follow the first label and labels that carry neither an underscore nor one of the reserved words, with at most one sub among these and only in front of three; and then the name is: the first labels joined by dots and cut to 64 bytes as the host, the instance or the service, and the others in order |
| `DnsGrammar.ParsedExactly` | components/mdns/mdns_utils.c:21-130 | the same for every packet, whose name is also invalid if a pointer comes behind four labels |
| `DnsGrammar.DottedHost` | components/mdns/mdns_utils.c:59-67 | labels that are no reserved words and then local or arpa: the host is the labels joined by dots, in order, cut to 64 bytes, and service and protocol are empty |
| `DnsGrammar.ReverseName` | components/mdns/mdns_utils.c:59-67 | the same labels and then in-addr or ip6 and arpa: they become the service, joined by dots, and in-addr or ip6 the protocol |
| `DnsReader.TouchesSame` | components/mdns/mdns_utils.c:21-93 | packets that agree on the bytes touched also agree on which bytes are touched |
| `DnsReader.DecodeFrame` | components/mdns/mdns_utils.c:21-93 | hence no byte from Reach on matters: packets that agree below it give the same labels and the same end |
| `DnsReader.DecodeDepth` | components/mdns/mdns_utils.c:21-93 | starting deeper in a chain of pointers changes the result exactly when the jumps of the name exceed the limit of 16 |
| `DnsReader.ReadLabels` | components/mdns/mdns_utils.c:26-65 | the loop over labels either stands at the end or at a pointer having read a prefix of the decoding that DnsChains.ReadExactly characterises, or the name has no decoding |
| `DnsReader.ReadFqdn` | components/mdns/mdns_utils.c:21-93 | terminates on every packet; fails exactly when the name has no decoding, and otherwise returns the end of the name and its labels placed into host, service, protocol and domain; which labels go where is what DnsGrammar.ParsedExactly says |
| `DnsReader.ParseFqdn` | components/mdns/mdns_utils.c:95-130 | for every packet and start: the result is the rearranged placement of the decoded labels, or an error exactly when there is no decoding (DnsChains.ReadExactly); valid exactly for the names of DnsGrammar.ParsedExactly; every field fits its buffer |
| `DnsReader.ParsedFits` | components/mdns/mdns_utils.c:95-130 | for every packet: host, service, protocol and domain of a parsed name have at most 64 bytes |
| `DnsReader.JumpsAreInvisible` | components/mdns/mdns_utils.c:21-93 | where a name was compressed makes no difference to how its labels are placed |
| `DnsReader.SpelledPlaces` | components/mdns/mdns_utils.c:95-130 | the labels of an instance, a service, a host or a subtype, in any case, are placed as the parts that they spell |
| `DnsReader.ParseInverts` | components/mdns/mdns_utils.c:95-130 | parsing a name of any of the four kinds gives back its parts up to case, however it was compressed and however its labels are capitalised |
| `DnsWriter.FindName` | components/mdns/mdns_send.c:694-732 | a place found is before the end, holds the wanted first label and reads as the wanted name |
| `DnsWriter.FindNameIsFirst` | components/mdns/mdns_send.c:694-732 | no accepted place lies before the one found, and one is found if there is any |
| `DnsWriter.Compare` | components/mdns/mdns_send.c:719-731 | the comparison loop accepts exactly the names with as many parts as strings, all equal up to case |
| `DnsWriter.Search` | components/mdns/mdns_send.c:694-732 | the search loop finds the first acceptable place, or there is none before the end |
| `DnsWriter.RoomIsEnough` | components/mdns/mdns_send.c:686-747 | where there is room for all labels and one byte more, and no string leaves 255 when divided by 256, the name is finished, with a pointer or in full |
| `DnsWriter.AppendString` | components/mdns/mdns_send.c:103-113 | the string is written with its length in one byte, or does not fit; the result counts what was written, but for 255 bytes, where it wraps to 0 |
| `DnsWriter.AppendFqdn` | components/mdns/mdns_send.c:686-747 | on every packet and for all strings: the bytes written, the new end and the returned length are those of the decision that the round-trip lemmas are about, which breaks off where a label does not fit or has 255 bytes; all other bytes are unchanged |
| `DnsRoundTrip.FullNameRoundTrip` | components/mdns/mdns_send.c:686-747 | a name written without a pointer reads back as its labels if and only if each of them has 1 to 63 bytes, which the writer does not check |
| `DnsRoundTrip.PointerDecides` | components/mdns/mdns_send.c:686-747 | for every packet that a pointer ends up in: the name reads back if and only if the labels in front of it have 1 to 63 bytes, the name pointed to starts before it, and that name reads, one jump deeper, as the remaining labels |
| `DnsRoundTrip.PointerRoundTrip` | components/mdns/mdns_send.c:686-747 | when the bytes pointed to are settled this can be told before the pointer is written: the name pointed to consists of exactly the wanted labels and is not at the limit of jumps, none of which the writer checks |
| `DnsUnsettled.UnsettledIsUnreadable` | components/mdns/mdns_send.c:686-747 | a pointer to a name that runs into the bytes about to be written does not read back, for labels without bytes from 0xC0 on and a name without NUL inside its labels |
| `DnsUnsettled.PlainRoundTrip` | components/mdns/mdns_send.c:686-747 | for the same labels, settled or not: the name reads back if and only if its labels are proper and the name pointed to is settled, starts before it, has the wanted labels and is not at the limit of jumps |
| `DnsRoundTrip.PointerReach` | components/mdns/mdns_send.c:686-747 | reading through a pointer to settled bytes looks at no byte after the pointer |
| `DnsRoundTrip.SelfReferenceIsUnreadable` | components/mdns/mdns_send.c:686-747 | a pointer into the name being written can never be read |
| `DnsNames.DecidedPointer` | components/mdns/mdns_send.c:686-747 | whatever the writer decides to point to satisfies what the round-trip lemmas ask of a written pointer |
| `DnsNames.NameRoundTrip` | components/mdns/mdns_send.c:686-747 | for every packet and all strings whose back-reference is settled: what AppendFqdn writes reads back, ending where it stopped, if and only if the labels are proper and the back-reference is faithful |
| `DnsPackets.WroteKeeps` | components/mdns/mdns_send.c:686-885 | appending a name or other bytes, or overwriting bytes that reading a complete name does not touch, leaves the reading of that name as it was |
| `DnsPackets.BuiltKeeps` | components/mdns/mdns_send.c:686-1398 | a complete name reads the same in the finished packet as when it was written, whatever was appended after it and whichever bytes that it does not touch were overwritten |
| `DnsPackets.EveryNameReadsBack` | components/mdns/mdns_send.c:686-1398 | in every finished packet a name whose back-reference is settled reads back where it was written, through all appended and overwritten bytes that spare it, if its back-reference was faithful, and only then |
| `DnsPackets.FieldsSpareName` | components/mdns/mdns_send.c:835-885 | filling in a header count or the length of a record spares every name that refers to names only |
| `DnsPackets.FinishedPacketReadsBack` | components/mdns/mdns_send.c:1355-1398 | so in a packet in which only header counts and record lengths are filled in later, every such name reads back as the labels asked for |
| `DnsPackets.ReadNameParses` | components/mdns/mdns_utils.c:95-130 | a name that reads back as the labels of an instance, a service, a host or a subtype parses to its parts up to case |
| `DnsPackets.FinishedPacketParses` | components/mdns/mdns_send.c:686-1398 | writer and parser together: an instance, service, host or subtype written anywhere in a packet parses in the finished packet to its parts up to case |
| `DnsMistakes.UnflaggedHasWantedLabels` | components/mdns/mdns_send.c:707-731 | a name that was found without the sub or invalid flag has exactly the wanted labels, so looking at these flags would be enough |
| `DnsMistakes.ExtraLabelsAreMistaken` | components/mdns/mdns_send.c:707-731 | wherever it stands, an accepted name with another number of labels, if it is the first accepted one, makes the written name read back wrong |
| `DnsMistakes.SubtypeIsMistaken` | components/mdns/mdns_send.c:853-886 | both names of append_subtype_ptr_record at any place behind which nothing is accepted earlier: when the instance is called like the subtype, it is written as a pointer to the subtype's name and does not read back |
| `DnsMistakes.HeaderHoldsNoName` | components/mdns/mdns_send.c:1355-1362 | no place in a packet header is ever accepted as a name that ends in a label of three bytes or more |
| `DnsMistakes.GoodbyeIsMistaken` | components/mdns/mdns_send.c:1553-1598 | so the first record of a subtype goodbye for an instance called like its subtype names something else, whenever the writer found nothing to point to for the subtype's own name |
| `DnsMistakes.LocalHostPointsToItself` | components/mdns/mdns_send.c:694-732 | a host called local, where a zero byte was left over and nothing is accepted earlier, is written as a name that points to itself, which nothing can read |
| `DnsMistakes.LocalHostFirst` | components/mdns/mdns_send.c:1355-1362 | so it is when this host is the first name of a packet whose buffer was zero there |
| `CacheGuarantees.IndexIsExact` | components/mdns/mdns_cache.c:30-120 | in every sound cache the expiry list is sorted, has one node for every record that is present and none for any other, and every node names the entry that holds its record now |
| `CacheGuarantees.NothingIsEmpty` | components/mdns/mdns_cache.c:534-550 | no entry without services and addresses and no service without records survives an operation |
| `CacheGuarantees.NothingIsTwice` | components/mdns/mdns_cache.c:217-268 | no two services with the same names on one interface and protocol and no two entries of one host, where names are the same as FoldDecides says, and whatever is marked will be reported |
| `CacheGuarantees.RowsAreRecords` | components/mdns/mdns_cache.c:30-54 | the flat view in which the operations are specified has exactly one row for every record |
| `CacheIndex.ScheduleKeeps` | components/mdns/mdns_cache.c:56-120 | rescheduling keeps the list sorted and free of duplicates and changes the node of that record only |
| `CacheEntries.NewEntryKeeps` | components/mdns/mdns_cache.c:351-374 | a new entry keeps every structural invariant and no record changes |
| `CacheEntries.DropEntryKeeps` | components/mdns/mdns_cache.c:324-349 | removing an empty entry keeps every structural invariant and no record changes |
| `CacheEntries.NewServiceKeeps` | components/mdns/mdns_cache.c:383-426 | a new service keeps every structural invariant and no record changes |
| `CacheEntries.DropServiceKeeps` | components/mdns/mdns_cache.c:534-550 | removing an empty service keeps every structural invariant and no record changes |
| `CacheEntries.MoveKeeps` | components/mdns/mdns_cache.c:439-466 | moving a service to the entry of another host keeps every structural invariant, its records keep contents and deadlines, and only their host changes |
| `CacheRecords.SetRecordKeeps` | components/mdns/mdns_cache.c:579-890 | storing a PTR, SRV or TXT record keeps every structural invariant; exactly the row of that key is replaced or added |
| `CacheRecords.NewSubtypeKeeps` | components/mdns/mdns_cache.c:468-513 | a new subtype keeps every structural invariant and adds exactly its row |
| `CacheRecords.NewAddrKeeps` | components/mdns/mdns_cache.c:892-965 | a new address keeps every structural invariant and adds exactly its row |
| `CacheRecords.DropRecordKeeps` | components/mdns/mdns_cache.c:990-1074 | forgetting a record keeps every structural invariant and takes away exactly its row |
| `CacheExpiry.OneRowPerKey` | components/mdns/mdns_cache.c:217-268 | no two rows of a sound cache have the same key |
| `CacheExpiry.PassedAll` | components/mdns/mdns_cache.c:990-1074 | popping from the head until the head is in the future removes all expired records, because the list is sorted |
| `CacheSpec.TxtEqualIsPermutation` | components/mdns/mdns_cache.c:759-811 | for every list without repeated items: the comparison of TXT records holds if and only if no key of it is empty and the other list has the same items in some order, keys up to case |
| `CacheSpec.EmptyKeyIsNeverEqual` | components/mdns/mdns_cache.c:759-811 | a list with an empty key compares equal to no list, not even to itself |
| `CaseFold.FoldDecides` | components/mdns/mdns_utils.c:310-318 | names are the same for the cache exactly if they have the same length and at each place the same character or the two cases of one ASCII letter |
| `CacheContracts.FoldedAlike` | components/mdns/mdns_cache.c:243-268 | a service is found under other names exactly if all three are the same up to the case of ASCII letters |
| `CacheContracts.PtrInOtherLetters` | components/mdns/mdns_cache.c:579-659 | a PTR record received again with its names in other letters is never added a second time, and if it lives as long nothing has changed |
| `CacheContracts.SrvInOtherLetters` | components/mdns/mdns_cache.c:689-757 | the same for SRV records, where the host too may be in other letters |
| `CacheContracts.TxtInOtherLetters` | components/mdns/mdns_cache.c:835-890 | the same for TXT records with the same items |
| `CacheContracts.AddrInOtherLetters` | components/mdns/mdns_cache.c:892-965 | the same for an address of a host in other letters |
| `CacheLifetimes.PtrLives` | components/mdns/mdns_cache.c:579-659 | a PTR record that was received is found by a removal of expired records at any time exactly if that is before as many seconds as it says have passed, and a goodbye ends it at once |
| `CacheLifetimes.SrvLives` | components/mdns/mdns_cache.c:689-757 | the same for SRV records |
| `CacheLifetimes.TxtLives` | components/mdns/mdns_cache.c:835-890 | the same for TXT records |
| `CacheLifetimes.AddrLives` | components/mdns/mdns_cache.c:892-965 | the same for addresses, of a host that is known or may be created |
| `CacheSpec.RepeatedItemHidesChange` | components/mdns/mdns_cache.c:794-811 | and only for those: for every list with a repeated item there is a different list that compares equal, so a change goes unnoticed |
| `CacheSync.DueIsFlat` | components/mdns/mdns_browser.c:358-380 | whether a browse is told of a service can be read off the records and the changes since the last report |
| `MdnsCache.Reposition` | components/mdns/mdns_cache.c:56-120 | starting the search from where the node was gives the same list as inserting from the head |
| `MdnsCache.TxtListContains` | components/mdns/mdns_cache.c:773-782 | true exactly when an equal item is in the list |
| `MdnsCache.TxtListEqual` | components/mdns/mdns_cache.c:794-811 | the loops decide the comparison that TxtEqualIsPermutation characterises |
| `MdnsCache.Store.constructor` | components/mdns/mdns_cache.c:1106-1119 | the empty cache is sound, with no records and nothing to report |
| `MdnsCache.Store.ExpiryNew` | components/mdns/mdns_cache.c:35-54 | the new node is at the head and unscheduled; on failure the list is unchanged |
| `MdnsCache.Store.ExpirySchedule` | components/mdns/mdns_cache.c:56-120 | the list is the sorted insertion that ScheduleKeeps is about, with the deadline of the record's time to live |
| `MdnsCache.Store.FindEntry` | components/mdns/mdns_cache.c:217-229 | the entry found is the host's, and none is found only if there is none |
| `MdnsCache.Store.FindService` | components/mdns/mdns_cache.c:243-268 | the service found has these names on this interface and protocol and is under the entry returned, and none is found only if there is none |
| `MdnsCache.Store.AddEntry` | components/mdns/mdns_cache.c:351-374 | the new state is the one that NewEntryKeeps is about; on failure nothing changed |
| `MdnsCache.Store.RemoveEntryIfEmpty` | components/mdns/mdns_cache.c:343-349 | the entry goes exactly when it has no service and no address; nothing else changes |
| `MdnsCache.Store.AddService` | components/mdns/mdns_cache.c:383-426 | the new state is the one that NewServiceKeeps is about; on failure nothing changed |
| `MdnsCache.Store.RemoveServiceIfEmpty` | components/mdns/mdns_cache.c:534-550 | the service, and then its entry, go exactly when they hold nothing |
| `MdnsCache.Store.Transfer` | components/mdns/mdns_cache.c:439-466 | the new state is the one that MoveKeeps is about: lists, ownership and every node of the service follow |
| `MdnsCache.Store.MarkSyncOut` | components/mdns/mdns_cache.c:173-182 | exactly this kind of change is noted for this service, and a report becomes pending |
| `MdnsCache.Store.ClearSyncOut` | components/mdns/mdns_cache.c:191-206 | no change of this service and of its subtypes is pending any more, and nothing else changes |
| `MdnsCache.Store.AddFirst` | components/mdns/mdns_cache.c:617-643 | a service that was not cached: its first record is stored and reported, or memory runs out at any point and no trace is left |
| `MdnsCache.Store.UpdateMoved` | components/mdns/mdns_cache.c:710-757 | an SRV record that leads to another host moves the service with all its records; when memory runs out for the node the service is back where it was, and the old host's entry goes only if nothing is left in it |
| `MdnsCache.Store.UpdateSubtype` | components/mdns/mdns_cache.c:468-513 | the subtype of a cached service is added or refreshed, and reported exactly when it is new or lives differently long |
| `MdnsCache.Store.AddFirstSubtype` | components/mdns/mdns_cache.c:617-654 | the first subtype record of a service that was not cached, or no trace when memory runs out |
| `MdnsCache.Store.FindSubtype` | components/mdns/mdns_cache.c:515-527 | the subtype found has the name, and none is found only if there is none |
| `MdnsCache.Store.UpdatePtr` | components/mdns/mdns_cache.c:579-659 | for every sound cache and every PTR record: the cache stays sound; exactly the record's row changes, to the received contents and deadline; added means the service was unknown, updated that the contents differ, no change that they do not and the deadline is renewed; a goodbye makes exactly that record expire at once; exactly the added and updated records are noted for the browses; an error changes nothing and happens only without memory |
| `MdnsCache.Store.UpdateSrv` | components/mdns/mdns_cache.c:689-757 | the same for SRV records, where a change of host moves all records of the service and counts as a change |
| `MdnsCache.Store.UpdateTxt` | components/mdns/mdns_cache.c:835-890 | the same for TXT records, where lists that compare equal keep the stored one |
| `MdnsCache.Store.ChooseTxt` | components/mdns/mdns_cache.c:813-833 | the stored list is kept exactly when it is there, lives as long and compares equal |
| `MdnsCache.Store.UpdateAddr` | components/mdns/mdns_cache.c:892-965 | an address of a host: exactly its row changes; when it is new or lives differently long every service of the host is noted for its browses; without permission to create a host nothing happens for an unknown one; an error changes nothing and happens only without memory |
| `MdnsCache.Store.UpdateExistingAddr` | components/mdns/mdns_cache.c:973-988 | an address is taken exactly when a browse is interested in some service of the host, and then like UpdateAddr |
| `MdnsCache.Store.EntryHasConsumer` | components/mdns/mdns_cache.c:981-986 | true exactly when some service of the host has a browse |
| `MdnsCache.Store.AskingBrowses` | components/mdns/mdns_browser.c:421-444 | each browse that asks for the service, and for the subtype if it is one, is listed exactly once |
| `CacheGoodbyes.TellGoodbye` | components/mdns/mdns_browser.c:421-444 | telling the browses that ask for one more expired PTR record keeps: every browse was told exactly once of every one it asks for and of no other |
| `MdnsCache.Store.RemoveExpired` | components/mdns/mdns_cache.c:990-1074 | exactly the records whose deadline has passed are gone, the cache is sound without empty services or hosts, what expired is noted for the services that remain, each expired PTR record is announced exactly once, and every browse is told exactly once of every expired PTR record it asks for and of no other |
| `MdnsCache.Store.RecordHasConsumer` | components/mdns/mdns_cache.c:557-577 | a node's record is wanted exactly when a browse asks for its service, its subtype, or for some service of the address's host |
| `MdnsCache.Store.TrimUnsubscribed` | components/mdns/mdns_cache.c:1076-1104 | exactly the records nobody wants with a deadline beyond the grace period get the end of the grace period, and the list is sorted again; nothing else changes |
| `MdnsCache.Store.BrowseMatches` | components/mdns/mdns_browser.c:297-317 | a browse without subtype matches a service with a PTR record, one with a subtype a service that has this subtype, which is returned |
| `MdnsCache.Store.BrowseIsDue` | components/mdns/mdns_browser.c:358-380 | decides whether the browse is to be told, as DueIsFlat relates it to records and changes |
| `MdnsCache.Store.DueBrowses` | components/mdns/mdns_browser.c:382-403 | each browse that is due is told exactly once |
| `MdnsCache.Store.ProcessSync` | components/mdns/mdns_cache.c:1258-1277 | every browse is told exactly once of every service that it matches and that changed in something it asked for, and of no other; afterwards nothing is pending, and the records are as they were |
| `MdnsCache.Store.NotifyBrowse` | components/mdns/mdns_cache.c:1279-1294 | a new browse is told exactly once of every cached service it matches and of no other |
| `CacheNews.PtrIsTold` | components/mdns/mdns_browser.c:358-403 | an update and the report after it: a PTR record that is news is told to exactly the running browses with a notifier for its service and protocol that ask for its subtype, or for none if it has none; one that is no news to nobody |
| `CacheNews.SrvIsTold` | components/mdns/mdns_browser.c:358-403 | an SRV record that is news is told to exactly the running browses with a notifier that find the service by its PTR record or their subtype |
| `CacheNews.TxtIsTold` | components/mdns/mdns_browser.c:358-403 | the same for TXT records |
| `CacheNews.AddrIsTold` | components/mdns/mdns_browser.c:358-403 | an address that is news is told to the same browses of every service of the host, and of no other |
| `CacheNews.QuietAfterReport` | components/mdns/mdns_cache.c:1258-1277 | after every report nothing is pending, as these four suppose |
| `CacheNews.LossIsTold` | components/mdns/mdns_browser.c:421-444 | when records expire, exactly the running browses with a notifier that ask for a PTR record, with its subtype or without, are told of its loss, and nobody of the loss of another record |
| `CacheNews.CachedIsTold` | components/mdns/mdns_cache.c:1279-1294 | a new browse is told of exactly the services of its service and protocol that have the PTR record or the subtype it asks for |
| `CacheNews.TrimmedExactly` | components/mdns/mdns_cache.c:1076-1104 | after trimming every record is there, and it has a new deadline exactly if it would have lived longer and no running browse asks for it: for a PTR record one without subtype, for a subtype one with it, for SRV and TXT any of the service, for an address one of some service of the host |
| `MdnsCache.Store.Clear` | components/mdns/mdns_cache.c:1106-1119 | everything is gone and the cache is sound |
| `CacheHistory.LivesUntilDeadline` | components/mdns/mdns_cache.c:579-1119 | over every sequence of operations: a record that is not received again, said goodbye to or trimmed is cached until the first removal of expired records at or after its deadline, and not from then on |
| `CacheHistory.CachedWasReceived` | components/mdns/mdns_cache.c:579-1119 | over every sequence of operations from an empty cache: what is cached was received, its deadline is not later than the one it was last received with, and no removal of expired records came at or after that |
| `CacheHistory.StepLives` | components/mdns/mdns_cache.c:579-1119 | one operation of any kind keeps every record that it does not touch, except those that it removes for their age |
| `TxQueue.Insert` | components/mdns/mdns_send.c:1641-1659 | the queue has the new packet and every packet it had |
| `TxQueue.Clear` | components/mdns/mdns_send.c:1680-1700 | exactly the packets of the port are gone |
| `TxQueue.InsertKeeps` | components/mdns/mdns_send.c:1641-1659 | scheduling keeps the queue sorted, the packets distinct, and those that already have an action in front |
| `TxQueue.Schedules` | components/mdns/mdns_send.c:1641-1659 | scheduling a packet keeps the agreement of queue and pending actions |
| `TxQueue.TakesOut` | components/mdns/mdns_send.c:1791-1838 | taking packets out of the middle of the queue keeps the agreement of queue and pending actions |
| `TxQueue.Clears` | components/mdns/mdns_send.c:1680-1700 | clearing a port keeps the agreement although actions of cleared packets stay pending |
| `TxQueue.TimerFlags` | components/mdns/mdns_send.c:1727-1759 | turning due packets into actions, as many as there is memory for, keeps the agreement and posts no packet twice |
| `TxQueue.HeadOrGone` | components/mdns/mdns_send.c:1850-1861 | the next action finds its packet at the head of the queue, or the packet is not in the queue any more |
| `TxQueue.Pops` | components/mdns/mdns_send.c:1850-1861 | sending the head with its action keeps the agreement, and no second action for it is pending |
| `ProbeMachine.StepKeeps` | components/mdns/mdns_pcb.c:43-462 | every event (time, timer, action, naming the host, opening, closing, duplicate, probes on one port or on all, announcement, reply, failed probe, removal of a service, clearing) keeps the queue invariant and the probe invariant of every port |
| `ProbeMachine.RunKeeps` | components/mdns/mdns_pcb.c:43-462 | so does every sequence of events |
| `ProbeMachine.HandleKeeps` | components/mdns/mdns_pcb.c:211-259 | sending a packet and moving its port on keeps both invariants in every state of the port |
| `ProbeMachine.RestartKeeps` | components/mdns/mdns_pcb.c:339-424 | starting over from any state keeps both invariants |
| `ProbeMachine.EveryRunIsOrderly` | components/mdns/mdns_send.c:1641-1861 | over every run the queue is sorted, flagged packets come first, pending actions name them in order, and the next action finds its packet at the head or gone |
| `ProbeMachine.EveryRunProbesAlone` | components/mdns/mdns_pcb.c:389-424 | over every run, while a port probes at most one packet waits for it, and that is the probe it was started with |
| `ProbeMachine.EveryRunProbesFirst` | components/mdns/mdns_pcb.c:211-259 | over every run a port goes from probing to announcing only after the packet of its latest probe was sent three times, each more than 250 ms after the one before, with no restart in between (section 8.1 of RFC 6762) |
| `ProbeMachine.MergedServices` | components/mdns/mdns_pcb.c:339-424 | the list of a probe has the new services and those of the unfinished probe that it takes over from, each once; ProbedServices.ProbeAsksFor says so of the port |
| `AnnounceTiming.EveryBeginningIsNoted` | components/mdns/mdns_pcb.c:43-300 | a port begins to announce in two ways only, from its third or a later probe and again from Running, and the log has exactly one entry, at its end, for each time |
| `SendTiming.EveryAnnouncementWaits` | components/mdns/mdns_pcb.c:229-250 | over every run the packet that announces at the end of a probe is sent only on its port, and more than 250 ms after the last probe |
| `SendTiming.EveryProbeWaits` | components/mdns/mdns_pcb.c:339-387 | over every run the packet of a probe is sent only on its port, and more than 120 ms after the event that started it, or more than one second if the port has failed more than five times |
| `SendTiming.ProbeScheduled` | components/mdns/mdns_pcb.c:339-424 | a probe that is started has the only packet that waits for its port, due 120 ms or one second and the random part from now; the other ports keep their packets |
| `PortLaws.SendsOnlyWhatIsDue` | components/mdns/mdns_send.c:1840-1861 | whatever the step: something is sent only by executing an action, and then it is the packet of that action, which was due, on a port that is not off |
| `PortLaws.ThreeAnnouncements` | components/mdns/mdns_pcb.c:211-259 | a port that announces and is left alone sends its announcement three times, one second apart, and then runs |
| `PortLaws.AnnouncementIsCut` | components/mdns/mdns_pcb.c:211-259 | the input for which that fails: a reply that is due within the second before the announcement is taken for one when it is sent, so both are sent twice and the announcement not a third time |
| `PortLaws.ComesUp` | components/mdns/mdns_pcb.c:211-259 | a port that probes and is left alone sends its probe three times, 250 ms apart, its announcement 250 ms later and twice more one second apart, and then runs |
| `PortLaws.OpenedComesUp` | components/mdns/mdns_pcb.c:172-181 | so a port that is opened while nothing else waits, with memory and a name for the host, comes to run |
| `PortLaws.AnnouncesAgain` | components/mdns/mdns_pcb.c:43-84 | an announcement starts over on a port that announces and has a packet waiting, and starts again from Running; nothing that waits is lost or delayed |
| `PortLaws.ClosedIsSilent` | components/mdns/mdns_pcb.c:153-167 | a port that was disabled is as at the start, and no packet waits for it |
| `PortLaws.DuplicateIsSilent` | components/mdns/mdns_pcb.c:186-204 | nor for a port that became a duplicate |
| `PortLaws.DuplicateWakes` | components/mdns/mdns_pcb.c:153-167 | when a port closes, the one that was its duplicate opens, and probes for the host if it has a name |
| `PortLaws.StarvedExactly` | components/mdns/mdns_pcb.c:339-387 | a probe without memory leaves no packet for its port and the port in its state; without memory for the list it keeps what it asks for, without memory for the packet it asks for nothing |
| `PortLaws.RemovalExactly` | components/mdns/mdns_pcb.c:261-300 | removing a service: a port that announces runs exactly if a packet of it lost its last answer; one that probes asks for that service once less, and runs exactly if there is nothing else it asks for; exactly the packets with nothing left go |
| `PortLaws.StepCounts` | components/mdns/mdns_pcb.c:331-334 | what every step does to the count of failed probes of every port |
| `PortLaws.FailuresAreCounted` | components/mdns/mdns_pcb.c:331-334 | over every run the counter of a port is the number of its failed probes since it last completed one, was closed or could not be opened, modulo 65536 |
| `ProbedServices.ProbeAsksFor` | components/mdns/mdns_pcb.c:389-424 | after a probe is started the port asks for exactly the given services and those of the unfinished probe that it takes over from |
| `ProbedServices.ProbeAllAsksFor` | components/mdns/mdns_pcb.c:445-462 | so does every port that is ready when all ports are probed |
| `ProbedServices.StepAsks` | components/mdns/mdns_pcb.c:43-462 | every step keeps a service that is probed for, but for six reasons: the probe is complete, the service is removed, there is no memory for the packet, the port is closed or a duplicate, the host gets a name, or the probe is forgotten |
| `ProbedServices.EveryRunKeepsAsking` | components/mdns/mdns_pcb.c:43-462 | over every run: once a port probes for a service it goes on doing so, however often the probe is started over, until one of these reasons comes up |
| `PortPaths.ComesToRun` | components/mdns/mdns_pcb.c:211-300 | a port comes to Running in four ways only: its last announcement was sent, a service was removed while it announced, the last service was removed while it probed but not for the host, or the host has no name |
| `HostProbing.StepHost` | components/mdns/mdns_pcb.c:43-462 | every event keeps: a port that is open either lacked memory for a probe, or has completed a probe for the host since it was opened and the host got its name, or probes for the host, or runs while the host has no name |
| `HostProbing.EveryRunProbesHost` | components/mdns/mdns_pcb.c:43-462 | over every run, whichever way the port took: an open port announces, or runs although the host has a name, only after a probe for the host was sent three times, more than 250 ms apart, since the port was opened and the host got its name, unless a probe could not be started since then |
| `PortPaths.StarvedAnnounces` | components/mdns/mdns_pcb.c:339-387 | the input for which that condition is needed: a port opened before the host has a name, and no memory for the probe when it gets one, announces with no probe sent |
| `PortPaths.MemoryDecides` | components/mdns/mdns_pcb.c:339-387 | hosts are probed for before they are announced in all runs in which at most m probes lack memory if and only if m is 0 |
| `PortPaths.LaterProbeIsCut` | components/mdns/mdns_pcb.c:261-300 | from every state with a port that runs: a probe for one service that is removed before it is sent leads over Running to announcing, with nothing sent for it |
| `TxScheduler.Responder.constructor` | components/mdns/mdns_pcb.c:302-309 | the initial state of every run |
| `TxScheduler.Responder.SendAfter` | components/mdns/mdns_send.c:1641-1659 | the linked-list insertion is the one that InsertKeeps is about |
| `TxScheduler.Responder.ClearIf` | components/mdns/mdns_send.c:1680-1700 | the in-place loop leaves exactly the packets of other ports, in order |
| `TxScheduler.Responder.NextPacket` | components/mdns/mdns_send.c:1708-1718 | true exactly when some packet waits for the port |
| `TxScheduler.Responder.SendPackets` | components/mdns/mdns_send.c:1727-1759 | both loops together are the timer step of the machine, so every promise over runs covers them |
| `TxScheduler.Responder.ExecuteAction` | components/mdns/mdns_send.c:1840-1861 | executing the first action is a step of the machine and keeps its invariant |
| `TxScheduler.Responder.ScheduleTxPacket` | components/mdns/mdns_pcb.c:211-259 | a sent packet moves its port on as the machine does |
| `TxScheduler.Responder.NewServices` | components/mdns/mdns_pcb.c:401-416 | the nested loops find exactly the services that the unfinished probe does not ask for, in order |
| `TxScheduler.Responder.InitProbeNewService` | components/mdns/mdns_pcb.c:339-387 | fields, queue and delay are those of the starting step of the machine, for enough memory, none for the list and none for the packet |
| `TxScheduler.Responder.InitProbe` | components/mdns/mdns_pcb.c:389-424 | a probe start is a step of the machine, with the services merged and the delay of a port that failed more than five times or not, and keeps its invariant; what it asks for then is ProbedServices.ProbeAsksFor, when it is sent SendTiming.EveryProbeWaits |
| `TxScheduler.Responder.ProbeAllPcbs` | components/mdns/mdns_pcb.c:445-462 | the loop over the ports is a step of the machine and keeps its invariant; what each port asks for then is ProbedServices.ProbeAllAsksFor |
| `TxScheduler.Responder.SetHostname` | components/mdns/mdns_responder.c:265-287 | naming the host and restarting all ports is a step of the machine, after which HostProbing has every port probe for the host again |
| `TxScheduler.Responder.PcbAnnounce` | components/mdns/mdns_pcb.c:43-84 | an announcement is a step of the machine and keeps its invariant in every state of the port |
| `TxScheduler.Responder.PcbEnable` | components/mdns/mdns_pcb.c:172-181 | opening a port and probing for the host and all services is a step of the machine and keeps its invariant; nothing happens when the port cannot be opened |
| `TxScheduler.Responder.PcbDisable` | components/mdns/mdns_pcb.c:153-167 | closing a port and waking the interface that was its duplicate is a step of the machine and keeps its invariant |
| `TxScheduler.Responder.PcbSetDuplicate` | components/mdns/mdns_pcb.c:186-204 | closing a port as a duplicate and announcing on the other interface is a step of the machine and keeps its invariant |
| `TxScheduler.Responder.SetProbeFailed` | components/mdns/mdns_pcb.c:331-334 | the counter of failed probes, 16 bits wide, goes up, which delays later probes |
| `TxScheduler.Responder.CheckProbingServices` | components/mdns/mdns_pcb.c:261-300 | the loop takes the service out of the probe; only the last service of a probe that does not ask for the host, or lost answers while announcing, make the port run |
| `TxScheduler.Responder.RemoveScheduledService` | components/mdns/mdns_send.c:1791-1838 | the loop over the queue, which checks the port of every packet and takes out the empty ones, is the removal step of the machine and keeps its invariant |
| `TxScheduler.Responder.ReplyShared` | components/mdns/mdns_receive.c:1380-1382 | nothing is queued for a port that has not finished probing; otherwise the reply waits 25 to 100 ms, and the invariant is kept |
| `BrowseLifecycle.Find` | components/mdns/mdns_browser.c:121-129 | what is found is listed, not off and matches; nothing is found only if no listed browse does |
| `BrowseLifecycle.MatchesExactly` | components/mdns/mdns_browser.c:102-116 | a browse matches exactly if service, protocol and subtype are each the same up to the case of ASCII letters, and service and protocol are not empty |
| `BrowseLifecycle.RefusedExactly` | components/mdns/mdns_browser.c:455-536 | a browse is refused, with memory, only for an empty service or protocol, for a subtype of more than 63 characters, or where one with all three names is on, so another subtype does not stand in its way; and one is ended exactly where such a browse is on |
| `BrowseLifecycle.CreateKeeps` | components/mdns/mdns_browser.c:455-497 | creating a browse keeps: every browse has exactly the pending actions that its state calls for, and no action is about a browse that is gone |
| `BrowseLifecycle.DeleteKeeps` | components/mdns/mdns_browser.c:504-536 | ending a browse keeps the same |
| `BrowseLifecycle.StartKeeps` | components/mdns/mdns_browser.c:215-227 | executing a start keeps the same, also after the browse was ended |
| `BrowseLifecycle.EndKeeps` | components/mdns/mdns_browser.c:154-168 | executing an end frees a browse that no other action is about |
| `BrowseLifecycle.EveryRun` | components/mdns/mdns_browser.c:266-281 | over every interleaving of the API and the service task: a new browse has its start pending, a browse is off exactly when its end is pending, and no pending action is about a browse that is gone |
| `BrowseLifecycle.EveryRunIsUnique` | components/mdns/mdns_browser.c:455-497 | over every interleaving no two browses that are not off have service, protocol and subtype the same up to the case of ASCII letters, if service and protocol names have at most 64 characters |
| `BrowseLifecycle.LengthsDecide` | components/mdns/mdns_browser.c:173-210 | creation keeps names unique from every state if and only if the names have at most 64 characters, because longer ones are stored cut off but compared whole |
| `BrowseLifecycle.LongNameMissed` | components/mdns/mdns_browser.c:121-129 | a browse created with a longer name is found neither to refuse a second one nor to end it |
| `BrowseLifecycle.Browser.constructor` | components/mdns/mdns_browser.c:93-100 | no browse and nothing pending |
| `BrowseLifecycle.Browser.FindNonOff` | components/mdns/mdns_browser.c:121-129 | the loop finds what the specification finds |
| `BrowseLifecycle.Browser.BrowseNew` | components/mdns/mdns_browser.c:455-497 | a browse is created, with its start pending, exactly when the arguments are acceptable, there is memory and none of the name is on; otherwise nothing changes |
| `BrowseLifecycle.Browser.BrowseDelete` | components/mdns/mdns_browser.c:504-536 | the browse is off with its end pending, or, when anything fails, everything is as before, including its state |
| `BrowseLifecycle.Browser.RunAction` | components/mdns/mdns_browser.c:266-281 | the next action always finds the browse it is about, and executing it is a step of every run |
| `BrowseLifecycle.Browser.Detach` | components/mdns/mdns_browser.c:154-168 | the browse is out of the list and gone exactly when it was listed; the others keep their order |
| `SrvTieBreak.Antisymmetric` | components/mdns/mdns_receive.c:539-605 | two devices never both win and never both give way, and none gives way exactly when their claims are the same |
| `SrvTieBreak.Transitive` | components/mdns/mdns_receive.c:539-605 | who beats the one that beats a third also beats the third |
| `SrvTieBreak.OneWinner` | components/mdns/mdns_receive.c:539-605 | among any devices that claim a service exactly one wins against all others, as each of them sees it |
| `SrvTieBreak.WhoWins` | components/mdns/mdns_receive.c:539-605 | the claim with the longer host name wins; of two with names of one length the one with the greater priority, then weight, then port, then the one whose host name has the greater byte where they first differ; a device without a host name neither wins nor gives way |
| `SrvTieBreak.GuardIsNeverTaken` | components/mdns/mdns_receive.c:566-570 | against every name that the reader returns the test for host or domain beyond 64 bytes never decides: the result is that of comparing the records |
| `SrvTieBreak.HeardAntisymmetric` | components/mdns/mdns_receive.c:539-605 | antisymmetry for every pair that the code compares: two devices that read each other's records never both win and never both give way |
| `SrvTieBreak.WrittenIsHeard` | components/mdns/mdns_receive.c:539-605 | every host name of 1 to 63 bytes other than the subtype marker is read as it was written, so HeardAntisymmetric is about it |
| `SrvTieBreak.LongestNameIsNotHeard` | components/mdns/mdns_responder.c:641-652 | a host name of 64 bytes, which mdns_hostname_set accepts, is written as a name that nobody can read |
| `TxtRecord.LengthIsWritten` | components/mdns/mdns_receive.c:501-505 | the length computed before a TXT comparison is the number of bytes then written |
| `TxtRecord.WrittenExactly` | components/mdns/mdns_send.c:996-1048 | byte by byte: each item is its length, cut to one byte, its key and, if it has one, an equals sign and its value; without items there is one zero byte |
| `TxtRecord.ItemRoundTrip` | components/mdns/mdns_receive.c:235-269 | the text of an item parses to the item if and only if its key is not empty and has neither an equals sign nor a zero byte, or the text is empty |
| `TxtRecord.RoundTrip` | components/mdns/mdns_send.c:996-1048 | items with a proper key and at most 255 bytes of text are read back in order from the record written |
| `TxtRecord.RoundTripExactly` | components/mdns/mdns_send.c:996-1048 | whatever the items are: they are read back if and only if every one has a proper key and at most 255 bytes of text |
| `TxtRecord.CountItems` | components/mdns/mdns_receive.c:195-217 | the number of non-empty strings in the data, or an error exactly when one runs over the end |
| `TxtRecord.ReadItem` | components/mdns/mdns_receive.c:222-269 | the item of a string, or none when it starts with an equals sign |
| `TxtRecord.ReadItems` | components/mdns/mdns_receive.c:303-330 | the loop yields every item of the data although it stops at the count of strings, or nothing when memory runs out |
| `TxtRecord.BuildArray` | components/mdns/mdns_receive.c:274-351 | on every input and with any memory: the items of the data, or none; with memory, none only when there are none or the data are malformed |
| `TxtRecord.BuildList` | components/mdns/mdns_receive.c:354-411 | on every input and with any memory: the items of the data or failure without items; with memory, failure exactly when the data are malformed |
| `TxtRecord.BothBuilders` | components/mdns/mdns_receive.c:274-411 | the two readers never give different items, and with memory they agree on every input |
| `TxtRecord.AppendEntry` | components/mdns/mdns_send.c:115-133 | the entry is written after the old contents, or it does not fit |
| `TxtRecord.AppendTxt` | components/mdns/mdns_send.c:1026-1047 | the data of the record are written after the old contents, or the packet is too small for them |
| `WebSocketFrames.FragmentsAreLegal` | components/esp_websocket_client/esp_websocket_client.c:756-799 | for every call: the type is on the first frame only, FIN on the last only and if asked for, no frame exceeds the buffer, and nothing is sent exactly for an empty continuation without FIN |
| `WebSocketFrames.StartHeard` | components/esp_websocket_client/esp_websocket_client.c:756-799 | a peer that follows section 5.4 of RFC 6455 receives the data of a first call whole, whatever the buffer size |
| `WebSocketFrames.ContinuationHeard` | components/esp_websocket_client/esp_websocket_client.c:756-799 | a continuation is appended to the message so far, and finishes it exactly when asked to |
| `WebSocketFrames.CallsAreHeard` | components/esp_websocket_client/esp_websocket_client.c:1638-1671 | for every sensible sequence of calls and every buffer size the peer reassembles exactly the messages meant, and the unfinished one as far as it was sent |
| `WebSocketFrames.OrderDecides` | components/esp_websocket_client/esp_websocket_client.c:1638-1671 | the peer fails the connection if and only if the order of the calls makes no sense |
| `WebSocketFrames.Client.SendExact` | components/esp_websocket_client/esp_websocket_client.c:718-810 | all frames of the call go out and the length is returned exactly when the transport takes them all; otherwise the frames it took went out, the result says so and the connection is gone; without a connection nothing goes out |
| `WebSocketFrames.Client.Send` | components/esp_websocket_client/esp_websocket_client.c:1638-1671 | any sequence of calls on one client: as long as it is connected and the order of the calls makes sense, the peer has reassembled exactly the messages meant by all of them; the length of the data is returned exactly when all frames went out, and otherwise 0 or less and never that length, with the connection gone |
| `DnsResponse.SkipName` | components/esp_dns/esp_dns_utils.c:87-131 | a name that is skipped ends after it starts and inside the buffer |
| `DnsResponse.SkipsName` | components/esp_dns/esp_dns_utils.c:87-131 | skipping any name that ends in the root or in a pointer stops exactly behind it, whatever follows |
| `DnsQuery.LabelsJoin` | components/esp_dns/esp_dns_utils.c:50-64 | the labels of a host name, joined by dots, are the host name, but for one dot at its end |
| `DnsQuery.QuestionIsFor` | components/esp_dns/esp_dns_utils.c:47-65 | the question that is written reads as the labels of the host name if and only if every label has 1 to 63 bytes |
| `DnsQuery.ProperIsName` | components/esp_dns/esp_dns_utils.c:47-65 | then it is the encoding of the name that section 3.1 of RFC 1035 defines |
| `DnsQuery.QuerySkips` | components/esp_dns/esp_dns_utils.c:47-131 | then the reader finds the end of the question |
| `DnsQuery.QueryEndIsFound` | components/esp_dns/esp_dns_utils.c:47-131 | the end is found if and only if every label's length, cut to one byte as it is stored, is neither 0 nor above the limit for a label |
| `DnsQuery.LongLabelsAskForAnother` | components/esp_dns/esp_dns_utils.c:55-62 | every host name whose end is found although a label is too long is asked for under another name: the one with each label cut to its length modulo 256 |
| `DnsQuery.QueryAsksForHost` | components/esp_dns/esp_dns_utils.c:21-74 | byte by byte: the query has the identifier, the flags 0x0100, one question and nothing else, the type asked for and class 1, and its question is for the host if and only if every label has 1 to 63 bytes |
| `DnsResponse.ParsesRecord` | components/esp_dns/esp_dns_utils.c:189-246 | a record in any position is read as its address, if it is one that counts, and the next record starts behind it |
| `DnsResponse.ReadsResponse` | components/esp_dns/esp_dns_utils.c:141-247 | every well-formed response is read record by record up to the limit, whether names are written out or end in a pointer, and an answer counts exactly if it is IN, lives at most a week and has the size of its type |
| `DnsReplies.SkippedIsName` | components/esp_dns/esp_dns_utils.c:87-131 | whatever is skipped is a name: labels of 1 to 63 bytes that end in the root or in a pointer |
| `DnsReplies.AcceptedExactly` | components/esp_dns/esp_dns_utils.c:141-247 | for every buffer: it is accepted if and only if it has the identifier that was asked with, at least one answer, a question and as many well-formed records as are looked at; and then exactly the records of class 1 with a time to live of at most a week that are of type 1 with 4 bytes or of type 28 with 16 bytes give an address |
| `DnsResponse.ResponseToAddresses` | components/esp_dns/esp_dns_utils.c:260-288 | from response to addresses: the valid ones among the first answers, in order, and nothing else |
| `DnsQuery.PlanIsQuestion` | components/esp_dns/esp_dns_utils.c:47-65 | what the loop writes is the question, up to one byte behind the first length that lies outside the buffer |
| `DnsQuery.OverrunsExactly` | components/esp_dns/esp_dns_utils.c:55-73 | the code writes past its buffer if and only if the query does not fit, because each length is stored before the size is looked at and the last fields are not checked |
| `DnsQuery.ErrorExactly` | components/esp_dns/esp_dns_utils.c:55-60 | an error is reported if and only if the last label already starts outside the buffer |
| `DnsQuery.WriteQuestion` | components/esp_dns/esp_dns_utils.c:47-65 | on every host name and buffer size: the bytes written in place and the result are the plan that PlanIsQuestion is about; all other bytes are unchanged |
| `DnsQuery.CreateQuery` | components/esp_dns/esp_dns_utils.c:21-74 | on every host name and buffer size: the buffer is cleared, then as much of the query that QueryAsksForHost is about is written as OverrunsExactly says, and the size of the whole or an error is returned |
| `DnsResponse.Skip` | components/esp_dns/esp_dns_utils.c:87-131 | the loop stops where the specification does, or fails with it, on every buffer |
| `DnsResponse.Parse` | components/esp_dns/esp_dns_utils.c:141-247 | on every buffer: error or the answers of the specification that ReadsResponse inverts |
| `DnsResponse.Extract` | components/esp_dns/esp_dns_utils.c:260-288 | the valid addresses in order up to the limit; an error exactly when there is none |

## Left out

- DnsRoundTrip.PointerRoundTrip: the bytes pointed to are settled, that is, reading them stops before the place where the writer is. PointerDecides has no such condition but speaks of the packet as it becomes.
- DnsUnsettled.PlainRoundTrip: decides before the pointer is written, settled or not, for labels without bytes from 0xC0 on (ASCII among them) and a name pointed to without NUL inside its labels; the others are left to PointerDecides.
- DnsUnsettled.UnsettledIsUnreadable: has the conditions of PlainRoundTrip.
- DnsNames.NameRoundTrip: the back-reference is settled, as in PointerRoundTrip.
- DnsPackets.EveryNameReadsBack: the back-reference is settled, as in PointerRoundTrip.
- DnsPackets.FinishedPacketReadsBack: the back-reference is settled and faithful and is read from bytes of names.
- DnsMistakes.GoodbyeIsMistaken: the name of the subtype is one for which the writer finds nothing to point to, which depends on what an earlier packet left in the buffer.
- DnsPackets.FinishedPacketParses: a name pointed to ends in a label and the root, as every name that the writer completes does.
- DnsWriter.AppendFqdn: the comparison of a first label that would run past the end of the packet counts as a mismatch, where memcmp would read on.
- MdnsCache.Store.UpdateSrv: names are not empty, as the callers ensure at components/mdns/mdns_receive.c:1095-1097; the old entry is swept after the record is stored, where the code does it just before; the two do not touch each other.
- MdnsCache.Store.UpdateTxt: names are not empty, as the callers ensure at components/mdns/mdns_receive.c:1176-1178.
- MdnsCache.Store.UpdateAddr: addresses are IPv4 or IPv6; the wildcard type is left out.
- MdnsCache.Store.ProcessSync: the browses that are told are modelled, not the building of the results in project_txt and project_addr, nor its running out of memory.
- MdnsCache.Store.NotifyBrowse: the services that the browse is told of are modelled, not the building of the results.
- MdnsCache.Store.RemoveExpired: which browses are told of which PTR record is modelled, not the building of the results they get, nor its running out of memory.
- ProbeMachine.EveryRunProbesFirst: time does not wrap around at 32 bits, and an action that was allocated is always queued.
- PortLaws.ComesUp: nothing else waits to be sent; AnnouncementIsCut shows what one reply does.
- PortLaws.ThreeAnnouncements: nothing else waits to be sent, as in ComesUp.
- CacheNews.PtrIsTold: nothing is pending before the update, as after every report; ProcessSync and DueIsFlat have no such condition. The same holds for SrvIsTold, TxtIsTold and AddrIsTold.
- TxScheduler.Responder.InitProbeNewService: on a port that is not probing the new list is the services given. Where such a port still has a list, which a probe on a closed port can leave behind, the code copies that list as well, beyond what it allocated.
- TxScheduler.Responder.PcbAnnounce: the answers that an announcement adds to one that is waiting are left out; when it is sent is not.
- EpppUart.Sender.Transmit: payloads are not longer than the MTU of 1500 bytes; what else lies behind the output buffer is not modelled.
- EpppSpi.Exchange: transfers are free of errors; SPI timing, the GPIO handshake and the check bytes of a header are left out.
- WebSocketFrames.Client.SendExact: the transport sends a frame whole or not at all; locking, TLS, reconnecting and control frames are left out.
- DnsQuery.WriteQuestion: there is memory behind the buffer for as much as is written; what else lies there is not modelled.
- Queries, the search API, host names and services of the responder, and the choice of answers to a query, which would mostly add list traversals.
- Reverse lookups (CONFIG_MDNS_RESPOND_REVERSE_QUERIES) and delegated hosts.
- The modem, console, Wi-Fi remote, mosquitto, libwebsockets and asio components, which wrap other libraries or drivers.
- Sockets, network interfaces, tasks, locks, logging and configuration.
