# Verified models of a networking course repository

The repository holds a reliable UDP sender, a web crawler, a DNS lookup tool and the small
buffer and checksum routines they share, all in C++ for Windows. This project models the parts of it
whose correctness is not obvious from reading one function, and proves what they do.

## What is modelled

**The sliding-window sender** (`RttEstimator`, `SenderModel`, `SenderSocket`, `Transfer`,
`TransferInvariant`, `Chunker`, `TransferSafety`, `TransferProgress`, `TransferRace`, `TransferSignals`, `TransferTiming`).
`SenderModel` gives every uninterrupted piece of the sender as a function on a value; `SenderSocket` is
the object itself, whose methods update its fields and its ring of packets in place and are proved against those
functions. The class is a refinement layer: what the state machine below runs are the functions. `Transfer` composes the
pieces into a state machine: the thread that runs main and Send,
cut into five steps, the worker thread with its three cases and its exit, a network that loses, duplicates
and reorders in both directions, and a receiver that acknowledges the next expected number. Both semaphores have
their real maximum, so that a release past it is refused. Losing, duplicating and
reordering need no steps of their own: whatever was ever sent stays available, and
nothing forces it to be delivered. A timeout may fire at any time at which `full` is not signalled; a signalled `full`
ends the worker's wait at once.

Two assumptions about the receiver are part of the state machine: it accepts a packet only when its number is
the next one, and its right edge (acknowledgment plus window) never shrinks. `CreditsNeedRightEdge` shows that
the second one is exactly what the credit scheme needs.

The comment in Send that no lock is needed because nothing shared is modified is wrong, and the code is
followed. Send copies the header and the payload one after the other into a slot that the worker may transmit in between.
`RaceCorrupts` is a complete run in which a timeout does so and the receiver ends up with a wrong byte that neither
side notices. A run is clean if no step transmits a slot whose header is new and whose payload is still an old one that
differs. `HonestExactly` shows for every run that all packets on the wire are right if and only if the run is clean, and the results about
reachable states are about clean runs. `RetransmissionRaces` turns the condition into a test on two counters, `RaceCanCorrupt` shows
that such a retransmission can always be accepted at once, and `CorruptedExactly` that the receiver's data is wrong exactly when it
accepted a wrong packet. Two further surprises are stated exactly. A signal of `full` can be refused (`LostSignal`,
`SignalRefused`); it is never made up for, so that many last packets are first sent by a retransmission
(`LastPacketsRetransmitted`). And a receiver that acknowledges everything with an empty window stops the transfer for good
(`CompletionPossible`), because the sender drops a later acknowledgment of the same number before looking at its window.

`TransferTiming` ties the estimator to the transfer: it keeps, beside the program, when each packet was last put on the wire, and shows that the estimator has
seen exactly the round trips of packets acknowledged alone and without duplicates, so the timeout of every reachable state is bounded by them.

**CRC-32** (`Crc32`, `Checksum`, `CrcValues`). The definition is polynomial long division; the bit register, the
byte table and the program's loop are shown to compute it, and error detection follows from each step being one-to-one.
Words are sequences of bits with the lowest bit first. `CrcValues` fixes in
numbers what the algebra leaves open.

**The crawler** (`CrawlerModel`, `Crawler`, `CrawlerProofs`, `CrawlerProgress`). Any number of threads over one queue
and two sets; each critical section and each call is a step. Parsing and name resolution are fixed partial functions.
A URL that is empty as a C string is never popped, and `FinishesIffNoBlank` shows that this is the only obstacle to finishing.

**The DNS tool** (`DnsNames`, `DnsJump`, `DnsQuestion`, `DnsExpand`, `DnsCursor`, `DnsAnswers`, `DnsQuery`, `DnsRecords`). Memory is a byte sequence with zeros behind its end. The name
encoder, the recursive decompression with its loop check in a growing text, the cursor rules behind it and the
question and answer loops are modelled as written for a 64-bit build, with their quirks: length bytes above 47 are
not turned into dots, a TTL whose low byte is CC ends the section, and the second search of the loop check always succeeds. `DnsExpand` compares what decompression returns with an independent definition of compressed names and shows exactly which of them it
gets right: behind labels it sees only pointers that begin with C0, and at a name behind offset 511 it reads one byte too far. `DnsRecords`
shows for which records the answer loop reads what is there: the cursor lands one byte early behind a single pointer, which suits the owner of
a record and not the name it holds, and the other way round behind labels and a pointer.

**Smaller cores**: the growing receive buffer (`PageSocket`), the URL parser, its printers and its
defaults (`Url`, `UrlDefaults`), and the
Internet checksum with a single fold (`InternetChecksum`), which is one too large whenever the fold carries again.

`Wrappers` holds what all of them share. `dafny verify dfyconfig.toml` checks the project.

## Model

| member | source | states |
|---|---|---|
| SenderSocket.SenderSocket.Open | hw3p3/hw3p3/SenderSocket.cpp:144-164 | after the handshake the fields are the model's initial state, with min(window, recvWnd) credits |
| SenderSocket.SenderSocket.Send | hw3p3/hw3p3/SenderSocket.cpp:418-452 | run alone, Send is the composition of its five atomic steps, the refused release included |
| SenderSocket.SenderSocket.FirstSend | hw3p3/hw3p3/SenderSocket.cpp:570-598 | the new state and the packet of the case for `full` are the model's |
| SenderSocket.SenderSocket.Timeout | hw3p3/hw3p3/SenderSocket.cpp:519-540 | the new state and the packet of the timeout case are the model's |
| SenderSocket.SenderSocket.ReceiveACK | hw3p3/hw3p3/SenderSocket.cpp:623-762 | for every acknowledgment: state, status and retransmitted packet are the model's, of which AckMeasures, StatusTells, RetransmitsOldest and CreditConservation say what they are |
| SenderSocket.SenderSocket.FindRTO | hw3p3/hw3p3/SenderSocket.cpp:674-684 | one sample updates deviation, estimate and timeout as the estimator says |
| SenderSocket.SenderSocket.MoveBase | hw3p3/hw3p3/SenderSocket.cpp:649-716 | the advancing branch is byte count, then round trip, then window |
| SenderSocket.SenderSocket.CountBytes | hw3p3/hw3p3/SenderSocket.cpp:652-667 | the last acknowledged packet counts with its size, the others as full ones |
| SenderSocket.SenderSocket.TimeACK | hw3p3/hw3p3/SenderSocket.cpp:671-691 | a sample is taken only under the code's three conditions; AckMeasures says which acknowledgments these are and what is measured |
| SenderSocket.SenderSocket.SlideWindow | hw3p3/hw3p3/SenderSocket.cpp:695-711 | base, duplicate counters and credits after the window moved, also when the release is refused |
| SenderSocket.SenderSocket.DuplicateACK | hw3p3/hw3p3/SenderSocket.cpp:717-760 | for an acknowledgment equal to the base: counters and fast retransmission are the model's |
| SenderSocket.SenderSocket.CountDuplicateACK | hw3p3/hw3p3/SenderSocket.cpp:719-757 | the counters of that branch, and when they reach three |
| TransferInvariant.InvStart | hw3p3/hw3p3/SenderSocket.cpp:303-312 | the state after Open satisfies every conjunct of the invariant |
| TransferInvariant.InvStep | hw3p3/hw3p3/SenderSocket.cpp:418-711 | every step of every party keeps the whole invariant unless it transmits a half-filled slot whose old payload differs |
| TransferInvariant.InvRun | hw3p3/hw3p3/SenderSocket.cpp:478-618 | so does every clean run of any length |
| TransferInvariant.FlowStep | hw3p3/hw3p3/SenderSocket.cpp:422-450 | counters stay ordered and credits conserved under every step |
| TransferInvariant.SlotsStep | hw3p3/hw3p3/SenderSocket.cpp:428-448 | every slot keeps a complete chunk under its own number except the one being filled |
| TransferInvariant.SlotsDistinct | hw3p3/hw3p3/SenderSocket.cpp:428-429 | two different numbers less than a window apart have different slots |
| TransferInvariant.CreditStep | hw3p3/hw3p3/SenderSocket.cpp:707-710 | a release asked for by any acknowledgment in the network is never negative nor above the maximum |
| TransferInvariant.LastAckedSlot | hw3p3/hw3p3/SenderSocket.cpp:653 | the slot read for the byte count still holds the last acknowledged packet, with its size |
| TransferSafety.EndToEndSafety | hw3p3/hw3p3/SenderSocket.cpp:418-711 | in every state a clean run reaches base <= received <= acquired <= lastReleased <= base + window; every packet on the wire carries its chunk; the receiver holds a prefix of the source |
| TransferSafety.CreditConservation | hw3p3/hw3p3/SenderSocket.cpp:705-711 | credits left plus credits used are lastReleased, which is base plus min(window, last advancing window); all requested releases are legal |
| TransferSafety.CreditsNeedRightEdge | hw3p3/hw3p3/SenderSocket.cpp:707-710 | an acknowledgment keeps the credits conserved if and only if its right edge is not left of lastReleased |
| TransferSafety.ReleasesWhole | hw3p3/hw3p3/SenderSocket.cpp:707-710 | a release is made whole or not at all, and lastReleased moves either way |
| TransferSafety.NoOverwrite | hw3p3/hw3p3/SenderSocket.cpp:428-447 | filling a slot leaves every unacknowledged packet in the ring intact, with its chunk and a size of 8 bytes more |
| TransferSafety.FirstSendIsNext | hw3p3/hw3p3/SenderSocket.cpp:574-595 | the first transmission sends the packet numbered nextToSend with its chunk, unless that was acknowledged already |
| TransferSignals.SignalsConserved | hw3p3/hw3p3/SenderSocket.cpp:450-595 | packets first sent, signals pending and signals refused add up to the packets handed over |
| TransferSignals.LostSignal | hw3p3/hw3p3/SenderSocket.cpp:450 | a release of `full` is refused if and only if `full` is at its maximum, and then the packets to be sent first are already acknowledged |
| TransferSignals.LastPacketsRetransmitted | hw3p3/hw3p3/SenderSocket.cpp:570-595 | after refusals the first transmissions stay that many packets behind for good, and completion stays possible unless stuck |
| TransferSignals.SignalRefused | hw3p3/hw3p3/SenderSocket.cpp:442-450 | a clean run of two packets in which a signal is refused |
| TransferSafety.ExitDelivers | hw3p3/hw3p3/hw3p3.cpp:139-170 | when the worker has left its loop, the receiver's chunks concatenate to exactly main's buffer and bytesTotal is its size |
| TransferSafety.BytesConserved | hw3p3/hw3p3/SenderSocket.cpp:649-667 | bytesTotal is the payload of exactly the acknowledged chunks, in every reachable state |
| TransferSafety.DuplicateAcks | hw3p3/hw3p3/SenderSocket.cpp:642-759 | after k duplicates numRTX is k and dupAck 0 or k+1; fast retransmission happens exactly on the second one; the reset branch is dead |
| TransferSafety.FastRetransmitsOnce | hw3p3/hw3p3/SenderSocket.cpp:717-757 | at most one fast retransmission per base over a run, and none of those packets among the round trips the estimator has seen (EstimatorFollows) |
| TransferSafety.RetransmitsOldest | hw3p3/hw3p3/SenderSocket.cpp:519-540 | a timeout and the second duplicate send the oldest unacknowledged packet with its chunk, other acknowledgments nothing |
| TransferSafety.StatusTells | hw3p3/hw3p3/SenderSocket.cpp:638-760 | the status reports exactly whether the base moved or a packet was retransmitted |
| TransferSafety.TimeoutsCounted | hw3p3/hw3p3/SenderSocket.cpp:537 | over any run the statistics count exactly its timeouts |
| TransferTiming.EstimatorFollows | hw3p3/hw3p3/SenderSocket.cpp:671-691 | in every reachable state the estimator is that of the handshake's round trip followed by the measured ones, each from a packet's last transmission to its acknowledgment |
| TransferTiming.AckMeasures | hw3p3/hw3p3/SenderSocket.cpp:649-691 | an acknowledgment is a sample if and only if it acknowledges the oldest packet alone and no duplicate came before; the sample is the time since that packet was last sent |
| TransferTiming.TimeoutBounded | hw3p3/hw3p3/SenderSocket.cpp:303-306 | the timeout of every reachable state lies in [lo+40, hi+4*max(hi-lo,10)] if the round trips of the transfer lie in [lo, hi] |
| Chunker.ChunksPartition | hw3p3/hw3p3/hw3p3.cpp:135-155 | the chunks concatenate to the buffer, all but the last are full and none is empty |
| Chunker.CutAndSend | hw3p3/hw3p3/hw3p3.cpp:135-155 | main's loop hands Send exactly these chunks in order |
| TransferProgress.HelpfulAdvances | hw3p3/hw3p3/SenderSocket.cpp:422-598 | from every state that is not stuck one concrete piece of continuation (drain `full`, time out on slot B, deliver, acknowledge, Send) uses up the measure without a race |
| TransferProgress.Finish | hw3p3/hw3p3/SenderSocket.cpp:478-618 | a continuation of at most the measured number of events delivers everything and ends the worker |
| TransferProgress.StuckRun | hw3p3/hw3p3/SenderSocket.cpp:638-641 | a stuck transfer stays stuck, whatever happens |
| TransferProgress.CompletionPossible | hw3p3/hw3p3/SenderSocket.cpp:705-711 | a reachable transfer can be completed if and only if it is not stuck, and it is stuck if and only if all that was sent is acknowledged with window 0 while chunks remain |
| TransferProgress.NoDeadlock | hw3p3/hw3p3/SenderSocket.cpp:507-598 | if no window of 0 is ever advertised, every state of every run can be completed |
| TransferRace.WrongPacketExactly | hw3p3/hw3p3/SenderSocket.cpp:445-447 | a step puts a wrong packet on the wire if and only if it transmits the slot between Send's two copies while the old payload differs |
| TransferRace.HonestExactly | hw3p3/hw3p3/SenderSocket.cpp:418-618 | for every run: all packets on the wire are right if and only if no step of it did that |
| TransferRace.CorruptedExactly | hw3p3/hw3p3/SenderSocket.h:50-54 | for every run: the receiver holds a prefix of the source if and only if it accepted no wrong packet |
| TransferRace.RaceCanCorrupt | hw3p3/hw3p3/SenderSocket.cpp:519-540 | after a retransmission that races the receiver can accept the wrong packet at once |
| TransferRace.RetransmissionRaces | hw3p3/hw3p3/SenderSocket.cpp:519-540 | a retransmission does so if and only if the slot is half filled and base equals sendSequenceNumber |
| TransferRace.FirstSendRaces | hw3p3/hw3p3/SenderSocket.cpp:570-595 | a first transmission does so only behind the base |
| TransferRace.OnlyRacesCorrupt | hw3p3/hw3p3/SenderSocket.cpp:418-618 | any run that leaves the receiver with something else than a prefix contains such a step |
| TransferRace.RaceCorrupts | hw3p3/hw3p3/SenderSocket.cpp:418-452 | a concrete run ends with the worker's exit test satisfied and a wrong byte delivered |
| RttEstimator.TimeoutBounds | hw3p3/hw3p3/SenderSocket.cpp:303-306 | for samples in [lo, hi] the estimate stays there, the deviation in [0, hi-lo], the timeout in [lo+40, hi+4*max(hi-lo,10)] |
| RttEstimator.SamplesWithin | hw3p3/hw3p3/SenderSocket.cpp:671-684 | the same from any estimator within the bounds |
| RttEstimator.SteadyNetwork | hw3p3/hw3p3/SenderSocket.cpp:764-778 | after n equal samples the error is a*(7/8)^n and the deviation has its exact closed form |
| RttEstimator.DeviationVanishes | hw3p3/hw3p3/SenderSocket.cpp:764-778 | the deviation is then at most (d + 2a)*(7/8)^n |
| Checksum.Checksum.constructor | hw3p3/hw3p3/Checksum.cpp:9-20 | all 256 table entries are eight shifts of their index |
| Checksum.Checksum.Entry | hw3p3/hw3p3/Checksum.cpp:14-18 | one entry |
| Checksum.Checksum.CRC32 | hw3p3/hw3p3/Checksum.cpp:21-37 | the loop returns the CRC defined by polynomial division, with the start and complement that OnesBits, EmptyBuffer and OneZeroByte fix |
| Crc32.GeneratorBits | hw3p3/hw3p3/Checksum.cpp:16 | the constant EDB88320 is the generator 04C11DB7 with its bits reversed |
| Crc32.FeedByteIsFeed | hw3p3/hw3p3/Checksum.cpp:26 | one table step is eight steps of the bit register |
| Crc32.TableRefinesBits | hw3p3/hw3p3/Checksum.cpp:21-37 | the table-driven register equals the bit-at-a-time register on every buffer, from any start |
| Crc32.RegisterDivides | hw3p3/hw3p3/Checksum.cpp:14-18 | the bit register computes the remainder of long division by the generator |
| Crc32.TableComputesCrc | hw3p3/hw3p3/Checksum.cpp:21-37 | so the program's value is the CRC of the definition |
| Checksum.CrcIncremental | hw3p3/hw3p3/Checksum.cpp:24-36 | the CRC of a buffer continues from the CRC of any prefix |
| Checksum.CrcAffine | hw3p3/hw3p3/Checksum.cpp:21-37 | crc(a) ^ crc(b) ^ crc(zeros) = crc(a ^ b) for equal lengths |
| Checksum.BurstDetected | hw3p3/hw3p3/Checksum.cpp:21-37 | any change confined to 32 consecutive bits, wherever they lie, changes the CRC |
| Checksum.FourBytesDetected | hw3p3/hw3p3/Checksum.cpp:21-37 | any change within four consecutive bytes does |
| CrcValues.OnesBits | hw3p3/hw3p3/Checksum.cpp:24 | the register starts as FFFFFFFF |
| CrcValues.EmptyBuffer | hw3p3/hw3p3/Checksum.cpp:36 | the empty buffer has checksum 0 |
| CrcValues.OneZeroByte | hw3p3/hw3p3/Checksum.cpp:21-37 | one zero byte has checksum D202EF8D |
| CrcValues.LeadingZero | hw3p3/hw3p3/Checksum.cpp:24-26 | for every buffer, a zero byte in front changes the checksum |
| CrcValues.LowBitFirst | hw3p3/hw3p3/Checksum.cpp:26 | bit i of a byte in transmission order is worth 2^i |
| Crawler.Crawler.NextUrl | hw1p3recheck/hw1p3recheck/Crawler.cpp:88-110 | takes the front URL, leaves a blank one, ends on an empty queue |
| Crawler.Crawler.CheckHostUnique | hw1p3recheck/hw1p3recheck/Crawler.cpp:138-155 | inserts and counts the host, and tells whether it is new |
| Crawler.Crawler.CheckIpUnique | hw1p3recheck/hw1p3recheck/Crawler.cpp:184-204 | comparing the set's sizes tells exactly whether the address is new |
| CrawlerProofs.InvStep | hw1p3recheck/hw1p3recheck/Crawler.cpp:70-220 | every step of every thread keeps the invariant |
| CrawlerProofs.FinishedOutcome | hw1p3recheck/hw1p3recheck/Crawler.cpp:70-220 | for any thread count and interleaving a finished crawl counted all URLs, the distinct parsed hosts, those that resolve, and their distinct addresses |
| CrawlerProofs.FinishedVisits | hw1p3recheck/hw1p3recheck/Crawler.cpp:184-220 | each distinct address reached the robots request exactly once, and no host twice |
| CrawlerProofs.ScheduleIndependence | hw1p3recheck/hw1p3recheck/Crawler.cpp:70-220 | two finished crawls of one queue agree on all shared state |
| CrawlerProofs.UnderWay | hw1p3recheck/hw1p3recheck/Crawler.cpp:88-110 | at any time popped and queued URLs add up to the initial queue, and nothing was asked twice |
| CrawlerProgress.StepWorks | hw1p3recheck/hw1p3recheck/Crawler.cpp:70-220 | without blank URLs every step of a thread that is not done uses up work |
| CrawlerProgress.EveryScheduleEnds | hw1p3recheck/hw1p3recheck/Crawler.cpp:70-220 | so no schedule is longer than the work |
| CrawlerProgress.FinishesIffNoBlank | hw1p3recheck/hw1p3recheck/Crawler.cpp:94-104 | a crawl can finish if and only if no URL in the queue is blank |
| DnsNames.RemoveNumbersInPlace | hw2p3/hw2p3/hw2p3.cpp:73-97 | the loop dots exactly the codes 1 to 47 in front of the first NUL |
| DnsNames.SecondSearch | hw2p3/hw2p3/hw2p3.cpp:241-251 | the loop check fires if and only if the offset's digits occur in the log and more jumps than packet bytes were made |
| DnsNames.RecordShrinks | hw2p3/hw2p3/hw2p3.cpp:253 | recording an offset never adds an unrecorded one, and removes one if it was new |
| DnsJump.JumpDescends | hw2p3/hw2p3/hw2p3.cpp:241-253 | every pointer followed raises neither the jumps left nor the offsets unrecorded, and lowers one of them |
| DnsJump.OneCall | hw2p3/hw2p3/hw2p3.cpp:223-381 | whatever branch one call takes, it recurses only with fewer jumps left or offsets unrecorded |
| DnsJump.Jump | hw2p3/hw2p3/hw2p3.cpp:223-381 | terminates on every memory, with a bound on its calls |
| DnsJump.JumpTerminates | hw2p3/hw2p3/hw2p3.cpp:382-400 | from its start it makes at most packet_size + 2^14 + 2 calls |
| DnsJump.ReportTexts | hw2p3/hw2p3/hw2p3.cpp:130-221 | the error texts are those that checkErrors compares with |
| DnsNames.RecordedExactly | hw2p3/hw2p3/hw2p3.cpp:241-253 | after recording an offset the log knows what it knew and the offsets whose digits occur in the new one, none across a comma |
| DnsExpand.SelfPointerFound | hw2p3/hw2p3/hw2p3.cpp:236-296 | a pointer to itself is reported as random6 after exactly packet_size + 2 calls |
| DnsExpand.HeaderPointerReported | hw2p3/hw2p3/hw2p3.cpp:280-284 | a pointer into the header is reported as random0 |
| DnsExpand.HeaderPointerBehindReported | hw2p3/hw2p3/hw2p3.cpp:333-337 | so is one behind labels |
| DnsExpand.EmptyReported | hw2p3/hw2p3/hw2p3.cpp:228-234 | two zero bytes are reported as random5 |
| DnsExpand.TruncatedReported | hw2p3/hw2p3/hw2p3.cpp:310-362 | a byte CC in a text up to its pointer is reported as random4p1 |
| DnsExpand.UnwrittenTargetReported | hw2p3/hw2p3/hw2p3.cpp:264-279 | behind a pointer it is reported by where the pointer leads |
| DnsExpand.LaterCalls | hw2p3/hw2p3/hw2p3.cpp:287-352 | only the first call of jump starts at labels, so the loop check behind labels never fires |
| DnsExpand.ErrorStays | hw2p3/hw2p3/hw2p3.cpp:402-409 | on an error the cursor stays and only the dots in front of the text go |
| DnsExpand.PointerFollowed | hw2p3/hw2p3/hw2p3.cpp:236-298 | at a pointer that it can follow to the end, jump returns the text of the name by section 4.1.4 of RFC 1035 |
| DnsExpand.PointerMissed | hw2p3/hw2p3/hw2p3.cpp:254-298 | at any other pointer of a well-formed name it reports an error or returns another text |
| DnsExpand.JumpExpands | hw2p3/hw2p3/hw2p3.cpp:223-381 | for every compressed name, with any pointers to earlier offsets: jump returns its text with the marks the cursor needs if and only if it recognises all of its pointers |
| DnsCursor.CursorBehindName | hw2p3/hw2p3/hw2p3.cpp:382-441 | processJump lands behind a name of labels and a pointer; one byte earlier for a pointer alone, and for labels alone that end in a letter with another zero byte behind; with the errors for CC bytes |
| DnsExpand.TextIsName | hw2p3/hw2p3/hw2p3.cpp:73-97 | the dotted text is the name if and only if every label has at most 47 characters and none of codes 1 to 47 but the dot |
| DnsExpand.NameReadRight | hw2p3/hw2p3/hw2p3.cpp:223-381 | a recognised name comes back as it should read if and only if all its labels are of that kind |
| DnsRecords.RecordExactly | hw2p3/hw2p3/hw2p3.cpp:719-815 | for every A, NS, CNAME or PTR record: the turn prints it and lands at its end if and only if owner and target are of the forms that keep it in step |
| DnsRecords.SectionInStep | hw2p3/hw2p3/hw2p3.cpp:719-815 | for every section of such records: the loop prints each and always stands at the next if and only if all are in step |
| DnsRecords.OtherType | hw2p3/hw2p3/hw2p3.cpp:719-815 | a record of another type prints its owner and the loop goes on at its data |
| DnsRecords.AddressAtEnd | hw2p3/hw2p3/hw2p3.cpp:744-764 | an address that begins behind the packet ends the loop, one that begins within is read |
| DnsQuery.NamePrinted | hw2p3/hw2p3/hw2p3.cpp:739-740 | a name whose labels print right appears with dots between its labels and none in front |
| DnsAnswers.ReadAnswers | hw2p3/hw2p3/hw2p3.cpp:719-772 | the answer loop is that many turns, one record each |
| DnsAnswers.PointerToQuestion | hw2p3/hw2p3/hw2p3.cpp:236-294 | the pointer C00C reads as the question's name in one call |
| DnsAnswers.PointedName | hw2p3/hw2p3/hw2p3.cpp:400-440 | processJump moves one byte past it and returns that name, unless the byte eight further on is CC |
| DnsAnswers.AddressRecordRead | hw2p3/hw2p3/hw2p3.cpp:719-772 | one address record is read whole and advances 16 bytes unless its TTL ends in CC |
| DnsAnswers.AnswersRead | hw2p3/hw2p3/hw2p3.cpp:719-772 | n such records give their addresses in order up to the first TTL ending in CC, and all n with the cursor at the end if and only if there is none |
| DnsQuestion.MakeDnsQuestion | hw2p3/hw2p3/hw2p3.cpp:98-128 | writes the encoded name, strlen + 2 bytes, and nothing else; QueryName reads it by the RFC |
| DnsQuestion.BuildQuery | hw2p3/hw2p3/hw2p3.cpp:495-525 | header, name and QueryHeader meet with no gap or overlap; QueryFields and QueryName read them |
| DnsQuery.QueryFields | hw2p3/hw2p3/hw2p3.cpp:501-517 | the packet's fields as numbers in network order: ID AA03, recursion desired, one question, type and class 1 right behind the name |
| DnsQuery.QueryName | hw2p3/hw2p3/hw2p3.cpp:98-128 | by sections 3.1 and 4.1.4 of RFC 1035 the packet's name is the query's labels, ending at strlen + 14, if and only if every label has 1 to 63 characters and no byte 0, C0 or CC |
| DnsQuestion.LaterLabels | hw2p3/hw2p3/hw2p3.cpp:680-697 | a label behind its length byte reads back if and only if the length is 1 to 47 modulo 256 and the characters are plain |
| DnsQuestion.WholeName | hw2p3/hw2p3/hw2p3.cpp:680-697 | the same for a whole name, whose first length byte is not read |
| DnsQuestion.QuestionRoundTrip | hw2p3/hw2p3/hw2p3.cpp:670-711 | the parser gives back name, type and class with the cursor at pkt_size if and only if the name is recoverable |
| PageSocket.Socket.constructor | hw1p3recheck/hw1p3recheck/socket.cpp:34-39 | a fresh buffer of the initial size |
| PageSocket.Socket.Read | hw1p3recheck/hw1p3recheck/socket.cpp:196-296 | for every arrival of bytes: success if and only if the peer closes after at least 50 bytes and at most 12288 (robots.txt) or 1572864 (page); the buffer holds the stream and a NUL in bounds, is the least size that leaves a quarter free, never passes 16384 or 2097152, and the copied bytes are the growth |
| PageSocket.Socket.ReadSegment | hw1p3recheck/hw1p3recheck/socket.cpp:219-270 | one segment: what was received and what is to come stay the whole stream, and no room means the page is refused |
| PageSocket.Socket.Finish | hw1p3recheck/hw1p3recheck/socket.cpp:226-239 | an orderly close decides by the 50 bytes and ends the buffer with a NUL |
| PageSocket.Socket.Accept | hw1p3recheck/hw1p3recheck/socket.cpp:241-270 | after a segment a quarter of the buffer is free, or more than three quarters of the cap are full |
| PageSocket.Socket.Double | hw1p3recheck/hw1p3recheck/socket.cpp:261-265 | doubling keeps the contents and never passes the cap |
| PageSocket.DoublingStaysCapped | hw1p3recheck/hw1p3recheck/socket.cpp:249-263 | testing for equality with the cap is enough, because sizes are 8192*2^k |
| PageSocket.RestOfStream | hw1p3recheck/hw1p3recheck/socket.cpp:219-241 | how segments are cut does not change the stream |
| Url.ParsedHtml.constructor | hw1p3recheck/hw1p3recheck/parsedHTML.cpp:42-49 | the fields after resetParser |
| Url.ParsedHtml.ParseString | hw1p3recheck/hw1p3recheck/parsedHTML.cpp:146-210 | result and all fields, accepted or not, in terms of the grammar's pieces; UrlRoundTrip and the rows of UrlDefaults say what they mean |
| Url.ParsedHtml.ParseAuthority | hw1p3recheck/hw1p3recheck/parsedHTML.cpp:180-208 | host and port, with the default port and the refused ones |
| Url.CutParses | hw1p3recheck/hw1p3recheck/parsedHTML.cpp:157-180 | the cuts are the one and only way to read a link by the grammar |
| Url.StrLenOfAuthority | hw1p3recheck/hw1p3recheck/parsedHTML.cpp:184 | the strlen test finds exactly the empty port texts, NULs included |
| Url.NumberRoundTrip | hw1p3recheck/hw1p3recheck/parsedHTML.cpp:192 | atoi of a printed int is that int |
| Url.PrintersPrint | hw1p3recheck/hw1p3recheck/parsedHTML.h:179-199 | the printers in a row make the link of the round trip |
| Url.UrlRoundTrip | hw1p3recheck/hw1p3recheck/parsedHTML.h:179-199 | parsing the printed parts gives all of them back if and only if no part holds a mark that ends it, the path starts with `/` and the port is positive |
| Url.AcceptedIsPrintable | hw1p3recheck/hw1p3recheck/parsedHTML.cpp:146-210 | the parts of every accepted link satisfy that condition, and printing and parsing them again changes nothing |
| UrlDefaults.DefaultPort | hw1p3recheck/hw1p3recheck/parsedHTML.cpp:180-204 | a link without a port means the same as with `:80` written out; with a bare colon it does if and only if the host holds no NUL |
| UrlDefaults.DefaultPath | hw1p3recheck/hw1p3recheck/parsedHTML.cpp:171-178 | a link without a path means the same as with `/` |
| UrlDefaults.PortExactly | hw1p3recheck/hw1p3recheck/parsedHTML.cpp:181-199 | which port texts are accepted, and which port and host are stored either way |
| UrlDefaults.RefusedWithoutScheme | hw1p3recheck/hw1p3recheck/parsedHTML.cpp:151-155 | a link that does not begin with `http://` is refused and changes only the whole link |
| UrlDefaults.AbsentMarksKeep | hw1p3recheck/hw1p3recheck/parsedHTML.cpp:159-169 | without `#` or `?` the fragment or query keeps what it held |
| UrlDefaults.WholeLinkKept | hw1p3recheck/hw1p3recheck/parsedHTML.cpp:151 | the link kept is the text up to the first NUL |
| UrlDefaults.AtoiReads | hw1p3recheck/hw1p3recheck/parsedHTML.cpp:192 | a number behind white space and a sign, up to the first other character, reads as the nearest int |
| UrlDefaults.AtoiOfOther | hw1p3recheck/hw1p3recheck/parsedHTML.cpp:192 | a text in which no number begins reads as 0 |
| InternetChecksum.IpChecksum | hw4/checksum.cpp:13-34 | the loop returns the complement of the once-folded 32-bit sum of the words |
| InternetChecksum.NoOverflow | hw4/checksum.cpp:18-28 | up to 65537 words the sum does not wrap |
| InternetChecksum.CountsModulo | hw4/checksum.cpp:18-33 | beyond that the result depends on the sum modulo 2^32 |
| InternetChecksum.SumByBytes | hw4/checksum.cpp:18-27 | the sum is that of the even bytes plus 256 times that of the odd ones |
| InternetChecksum.SumsToOnes | hw4/checksum.cpp:29-33 | a buffer with its checksum behind it sums to FFFF, as section 1 of RFC 1071 asks, if and only if the fold has no second carry |
| InternetChecksum.OnesComplementIsModular | hw4/checksum.cpp:29-33 | the one's-complement sum of section 1 of RFC 1071 is the sum modulo FFFF, 0 only for zeros |
| InternetChecksum.SingleFold | hw4/checksum.cpp:29-33 | the code is right if and only if the fold has no second carry, else one too large |
| InternetChecksum.ShortBuffersExact | hw4/checksum.cpp:13-34 | up to four bytes it is always right |
| InternetChecksum.SecondCarry | hw4/checksum.cpp:29-33 | six bytes for which it is not |

## Left out

- TransferSafety.EndToEndSafety: stated for clean runs; on any other run its claim about the wire is false (HonestExactly), and the receiver can be corrupted (RaceCorrupts).
- TransferProgress.NoDeadlock: for clean runs, too, and it says that completion is possible, not that a lossy network lets it happen.
- Transfer.Start: size, time and header of a slot are written in one step; between them the worker could only resend a number that is already acknowledged, which the receiver discards. Tearing inside one memcpy is not modelled.
- TransferRace.HonestExactly: sendto reads size and bytes of a slot in one step; in the code the size is evaluated before the bytes are copied, and a whole Send in between could refill the slot with a shorter packet.
- SenderModel.Opened: the SYN and FIN retry loops of Open and Close and the doubling of the timeout are not modelled; only the fields and credits after the SYN was answered.
- RttEstimator.TimeoutBounds: over exact real numbers, without floating-point rounding; clock ticks are milliseconds.
- SenderSocket.SenderSocket.ReceiveACK: DWORD and int wrap-around is not modelled (fewer than 2^31 packets are assumed), nor bytesTotal as a double; recvfrom failures and the statistics fields printed by the stats thread are left out.
- TransferSafety.CreditConservation: needs a receiver whose right edge never shrinks; CreditsNeedRightEdge says exactly when one acknowledgment breaks it.
- Crawler: from the robots request on, the counters are added repeatedly and objects are used after being deleted; there is no conservation law to state. The thread counter, updated under two locks, is left out as well.
- CrawlerProofs.FinishedOutcome: parsing and DNS are fixed partial functions of the URL and the host, and an address is a number.
- DnsAnswers.AnswersRead: the question's name must be ASCII, not empty, and start with a length below 64; authority and additional sections repeat the loop and are left out, as is printing of the TTL.
- DnsQuestion.ParseQuestion: an empty name makes the program write behind the end of a string, which is an outcome of its own without further meaning.
- DnsQuestion.QuestionRoundTrip: for types below 128, whose low byte prints unchanged; the tool sends 1 and 12 only.
- DnsExpand.JumpExpands: for names whose labels hold no byte 0, C0 or CC, whose pointers name offsets from 12 to before the labels they end, and that begin before the packet's end.
- DnsJump.OneCall: which error text a packet with several faults gets is stated only for the cases listed above.
- DnsCursor.CursorBehindName: not for the root name, where the program reads in front of an empty string.
- DnsRecords.RecordExactly: for class IN, names other than the root, and a length field that agrees with the record; the tool reads the length only in a variable it never uses.
- DnsJump.Jump: reads behind the packet see the memory given, with zeros behind it; a memory without any NUL is not modelled.
- InternetChecksum.SingleFold: up to 65537 words, beyond which the 32-bit sum can wrap; IpChecksum itself is stated for every length.
- Url.ParsedHtml.ParseString: atoi on numbers beyond int gives the nearest int, as in the Windows runtime; the language leaves it open.
- PageSocket.Socket.Read: select, its timeout and recv errors are one kind of arrival, Failure; connecting and sending are left out.
- Winsock calls, thread priorities, socket options, events for statistics and all printing are foreign calls or I/O without rules of their own.
- The earlier versions hw1, hw1p2 and hw3p2, which later ones supersede.
- The traceroute loop of hw4, a retry counter and a table of messages.
- The HTML parser is a library that is not part of this model.
