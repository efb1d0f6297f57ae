# NTA verification

A Dafny model of the core of a network traffic analyser: the agent that captures
packets, detects attacks and publishes events, and the server that enriches those
events and writes them to a time-series database. Each module follows one source file
or one part of it.

| modules | what they model |
|---|---|
| `Wrappers` | a value that may be missing |
| `Words`, `Capacity` | 64-bit counters, masks and the capacity of the ring buffer |
| `RingBuffer`, `RingMachine`, `RingTheorems` | the lock-free ring buffer: the object itself, and its state machine over every interleaving of loads, copies and stores |
| `PipelineMachine`, `PipelineTheorems`, `PipelineFlush` | capture, analysis, publication and metrics threads over two rings, and when a batch is sent |
| `Ewma`, `Baseline`, `KillChain`, `BruteForce`, `DnsName` | the adaptive baseline, the kill-chain correlator, the brute-force window and the DNS name decoder |
| `Suspects`, `SuspectTable`, `Analyzer` | one address's record, the whole table, and the engine that updates the tables in place |
| `DetectorReports`, `ScanReports` | exactly when each attack is reported, in terms of the packets of its address |
| `FrameReads` | frames built byte by byte, and what the analysis reads from them and publishes |
| `TagEscape`, `TrafficPoint`, `LineBatch`, `TrafficBatch`, `PointReads`, `FieldEscape` | the line-protocol printer, a reader that undoes it, and what it finds under each key |
| `Chains`, `AbuseCache`, `WhoisCache`, `GeoCache`, `IocTable` | the chained hash tables of the server |
| `WorkerPool`, `Scaler` | the worker slots and the loop that grows and shrinks them |

**How code becomes model.** Operations that work step by step on memory are methods
over arrays and classes; each is proved equal to a function of the old state, and the
lemmas about runs are about those functions. Concurrent code is a state machine with
one program counter for each thread; a run is a sequence of states in which any enabled
thread takes one step, and a theorem about runs quantifies over all of them. `RingMachine`
steps at every atomic load and store and at every copied cell of a `memcpy`;
`PipelineMachine` adds the flag accesses, the broker's answer and the clock; the caches
that release their lock step at every critical section.

The fields from `pushed` on in a ring, from `analysed` on in a pipeline, and `running` in
the pool are history: no step of the program reads them. The flag `fault` of a ring marks
an access outside its memory.

**Inputs.** The packet capture, the clock, the broker's answer, the API answers, the
contents of the databases, JSON values and the text `printf` makes of a number are
arbitrary inputs of the model. Time is an integer number of seconds. `double` is `real`,
and comparisons with a square root are made between squares; two lemmas tie these to the
comparison of the source.

**Where the code does not do what its documentation says.** The code is modelled as it
is; in each case one lemma gives a failing input and another says exactly when the
promise holds.

- The analysis thread is documented to exit once the packet ring is empty
  (`src/agent/core/pipeline.c:169`). It pops before it loads the done flag, so a packet
  accepted in between is never analysed: `DrainCanMissAPacket`, and exactly then:
  `AnalysisShutdown`.
- The README promises a brute-force alert for 30 attempts within 60 seconds
  (`README.md:44`). The window is not sliding: 58 attempts within one second can pass
  (`FiftyEightMayPass`), 59 cannot (`FiftyNineAlert`). Of 30 attempts within a minute
  the last one alerts exactly if it finds the window of the first still open
  (`AlertExactly`).
- The kill chain is documented to reset after 30 minutes without activity
  (`src/agent/analysis/analyzer.c:138`). The time is measured from the last rise of the
  stage (`ActivityDoesNotRenew`), so an address detected again after one second starts
  over (`ActiveAddressIsReset`). The reset comes as documented at every detection but
  those that find the address active within 30 minutes and its stage entered before
  (`ResetExactly`).
- The score bonus is documented for an address that reached EXPLOIT in less than 5
  minutes (`src/agent/analysis/analyzer.c:338`). It is given to an address that never
  reached EXPLOIT (`BonusWithoutExploit`) and taken from one that did
  (`PromptExploitLosesBonus`). It is given as documented exactly if, in the first 5
  minutes, an exfiltration came with an exploit, and later, no exploit was that prompt
  (`BonusExactly`).

**Limits of the code worth knowing.** No document is contradicted here.

- `rb_size` is called by the metrics thread, which is neither producer nor consumer. It
  may report 2^64 - 1 for an empty ring: `ObservedSizeCanWrap`, and exactly when it is
  right: `ObservedSize`.
- `next_pow2` returns 0 for a request above 2^63 (`NextPow2`); such a ring refuses every
  push (`RingBuffer`).
- `lp_escape` does not escape a backslash, so a tag value ending in one swallows the
  separator behind it: `TagsReadBack` is an equivalence.
- Two overlapping scale-downs would take the same slot: `OverlappingDownsMiscount`. The
  program has one scaler thread.

## Model

| member | source | states |
|---|---|---|
| `Capacity.NextPow2` | src/agent/core/ringbuf.c:6-18 | the bit-smearing loop returns the least power of two that is at least max(2, n) for every n up to 2^63, and wraps to 0 above |
| `RingBuffer.RingBuffer.constructor` | src/agent/core/ringbuf.c:20-35 | an empty queue whose capacity is the least power of two for the request, or 0 for a request above 2^63 |
| `RingBuffer.RingBuffer.Push` | src/agent/core/ringbuf.c:42-58 | appends to the queue in FIFO order unless it is full, and then counts one refusal and changes nothing else, also when head wraps at 2^64 |
| `RingBuffer.RingBuffer.Pop` | src/agent/core/ringbuf.c:60-71 | takes the oldest item, or fails exactly when the queue is empty |
| `RingBuffer.RingBuffer.Size` | src/agent/core/ringbuf.c:73-77 | the length of the queue, from the wrapped difference of the counters |
| `RingBuffer.RingBuffer.Overflow` | src/agent/core/ringbuf.c:79-81 | the number of pushes refused since the buffer was made, modulo 2^64, and that number itself while it fits |
| `Words.MaskedSlot` | src/agent/core/ringbuf.c:28-28 | for every capacity `next_pow2` yields, masking an unbounded counter gives its remainder, and the mask of the wrapped counter gives the same slot |
| `Words.MaskedSlotAdvances` | src/agent/core/ringbuf.c:52-56 | the slot of head + 1 follows the slot of head around the array, across the 2^64 wrap too |
| `RingMachine.NextKeepsInv` | src/agent/core/ringbuf.c:42-77 | every atomic step of producer, consumer or observer keeps the invariant that ties wrapped counters, slots and half-copied items to the unbounded history |
| `RingMachine.FullTest` | src/agent/core/ringbuf.c:43-50 | the wrapped comparison with a tail that may be stale holds exactly if the ring was full when tail was loaded |
| `RingMachine.EmptyTest` | src/agent/core/ringbuf.c:61-64 | the comparison with a head that may be stale holds exactly if nothing was queued when head was loaded |
| `RingTheorems.RunSafety` | src/agent/core/ringbuf.c:42-71 | on every run: popped is a prefix of pushed, occupancy is at most the capacity, no access leaves the slots, no slot is read and written at once, and every counted refusal saw a full ring |
| `RingTheorems.NeverColliding` | src/agent/core/ringbuf.c:52-67 | while both copies are under way they are in different slots |
| `RingTheorems.RunRefinesFifo` | src/agent/core/ringbuf.c:42-71 | every run is, step by step, a run of a bounded FIFO queue that refuses only when full and misses only when empty, and the counter counts its refusals |
| `RingTheorems.StepRefinesFifo` | src/agent/core/ringbuf.c:42-71 | one step enqueues, dequeues, refuses at a full queue, misses at an empty one, or leaves the abstract queue alone; a refusal takes effect at the load of tail, a miss at the load of head |
| `RingTheorems.OutcomeIsExact` | src/agent/core/ringbuf.c:47-64 | a push is refused, and counted once, if and only if the ring was full at the load of tail; a pop fails if and only if it was empty at the load of head |
| `RingTheorems.ObservedSize` | src/agent/core/ringbuf.c:73-77 | the size a third thread reads is the number of items pushed by its first load and not popped by its second if and only if no more had been popped by then; a wrong one passes for an occupancy only after 2^63 unmatched pops |
| `RingTheorems.ObservedSizeCanWrap` | src/agent/core/pipeline.c:281-281 | a concrete run in which the metrics thread reads 2^64 - 1 from an empty ring |
| `PipelineMachine.NextKeepsInv` | src/agent/core/pipeline.c:171-249 | every step of the four threads keeps both rings' invariants, the data invariant of packets, events and batches, and the counters; when a batch is sent is the subject of `PipelineFlush.FlushExactly` |
| `PipelineTheorems.PacketConservation` | src/agent/core/pipeline.c:171-187 | accepted packets = analysed packets, then the one being taken out, then the contents of the ring |
| `PipelineTheorems.EventConservation` | src/agent/core/pipeline.c:195-249 | accepted events = sent batches, then the held batch, then the one being taken out, then the ring; each sent batch has 1 to batch_size events; the two counters are their number and total length modulo 2^64 |
| `PipelineTheorems.AcceptedInOrder` | src/agent/core/pipeline.c:66-66 | the accepted events are a subsequence of the offered ones, and accepted plus refused pushes account for every finished one |
| `PipelineTheorems.AnalysisShutdown` | src/agent/core/pipeline.c:175-184 | at the exit of the analysis exactly the packets accepted before its last failed pop were analysed; all were if and only if none was accepted after it, for which the flag being set at that pop suffices |
| `PipelineTheorems.PublishShutdown` | src/agent/core/pipeline.c:209-243 | for each exit of the publication: what was sent, what is dropped, and when nothing is |
| `PipelineTheorems.LeftoverIsFinal` | src/agent/core/pipeline.c:175-187 | what the analysis leaves behind is never analysed later and never grows |
| `PipelineTheorems.DrainCanMissAPacket` | src/agent/core/pipeline.c:175-180 | a concrete run from start to exit that loses an accepted packet |
| `PipelineFlush.FlushExactly` | src/agent/core/pipeline.c:218-243 | on every run, past the loads of clock and flag: the held batch goes to the broker if and only if it is full, or its first event was popped at least the timeout ago, or the analysis is done with events held; an accepted batch is sent, a refused one is kept for the next trip or given up with the thread when the analysis is done, and with nothing due the thread leaves if and only if the analysis is done |
| `PipelineFlush.SendPossible` | src/agent/core/pipeline.c:218-229 | in every reachable state past both loads a step that sends the held batch exists if and only if it is due, and then so does one in which the broker refuses it |
| `PipelineFlush.RunKeepsTimes` | src/agent/core/pipeline.c:211-213 | on every run `batch_start` is the time the first of the held events was popped |
| `PipelineFlush.DrainedOnceDone` | src/agent/core/pipeline.c:221-221 | on every run each judgement begun after the analysis was done knows that it is |
| `PipelineFlush.TimeoutSendsPartBatch` | src/agent/core/pipeline.c:218-223 | a concrete run from the start: batches of two, one event, the capture still running, and after 100 ms a batch of one is sent |
| `Ewma.TracksWeightedMoments` | src/agent/analysis/analyzer.c:243-266 | after any samples, across the switch of alpha at 100, the incremental mean and variance are the batch weighted mean and variance under weights that are positive and sum to 1 |
| `Ewma.WeightsAreGeometric` | src/agent/analysis/analyzer.c:243-266 | those weights in numbers: a sample enters with 0.3, or 0.1 after the first hundred, the first one with 1, and loses the factor 0.7 for every later sample among the first hundred and 0.9 for every other |
| `Ewma.TrackBounds` | src/agent/analysis/analyzer.c:259-266 | the mean lies between the smallest and the largest sample, the variance between 0 and a quarter of the squared range |
| `Ewma.AnomalyBySquareRoot` | src/agent/analysis/analyzer.c:282-286 | the squared comparison of the model is the comparison with 3 times the square root |
| `Ewma.FlaggedIsRare` | src/agent/analysis/analyzer.c:282-286 | the past samples the three-sigma test would flag carry less than 1/9 of the weight, whatever was sampled |
| `Baseline.DivideIsProper` | src/agent/analysis/analyzer.c:229-239 | the windows partition the packets in order, and each closes with the first packet a minute after its start |
| `Baseline.RunReflectsWindows` | src/agent/analysis/analyzer.c:229-274 | a baseline has absorbed exactly the rate, port and DNS sample of every closed window, and counts the open one |
| `Baseline.BaselineHoldsWeightedMoments` | src/agent/analysis/analyzer.c:229-274 | so each of its three metrics holds the weighted moments of all its windows |
| `KillChain.RunDescribesIncident` | src/agent/analysis/analyzer.c:361-403 | after any detections the record tells the current incident: first time, time of the last rise, hit bits, stage COMPLETE if and only if all three were hit and the highest hit otherwise, score, and the untruncated list of distinct techniques in first-seen order |
| `KillChain.AddTagIsAppend` | src/agent/analysis/analyzer.c:394-400 | `strstr` on the joined text decides membership in the list, and `strncat` into 128 bytes never truncates |
| `KillChain.OccursIsMembership` | src/agent/analysis/analyzer.c:396-396 | a technique occurs in the joined text if and only if it is in the list |
| `KillChain.StageNeverFalls` | src/agent/analysis/analyzer.c:379-392 | within an incident the stage never falls |
| `KillChain.StageAndScore` | src/agent/analysis/analyzer.c:295-350 | after any detections, in numbers: COMPLETE with 90 if all three kinds of attack are in the incident, else 70 with an exfiltration, 50 with an exploit and 20 otherwise, and from 50 on 10 more while the incident spans less than 300 seconds |
| `KillChain.TechniquesBySeen` | src/agent/analysis/analyzer.c:319-332 | which attacks put which MITRE technique into the tags |
| `KillChain.IncidentSpan` | src/agent/analysis/analyzer.c:368-383 | no incident reaches further than 3 times 30 minutes past its first detection |
| `KillChain.ActivityDoesNotRenew` | src/agent/analysis/analyzer.c:368-383 | a detection that does not raise the stage leaves the expiry of the record as it was, at every later time: it is measured from the last rise |
| `KillChain.ResetExactly` | src/agent/analysis/analyzer.c:138-138 | on every ordered run the reset comes as documented (if and only if there was no activity for 30 minutes), unless the stage was entered more than 30 minutes ago and the last detection was not; and in that case it never does |
| `KillChain.ResetStartsOver` | src/agent/analysis/analyzer.c:367-377 | an expired record starts a new incident with the detection, and any other goes on with its own |
| `KillChain.ActiveAddressIsReset` | src/agent/analysis/analyzer.c:368-377 | a concrete run: an address detected again one second after the last time starts over |
| `KillChain.HighScore` | src/agent/analysis/analyzer.c:340-350 | the score is 80 or more if and only if all three stages were hit, or exfiltration was and the latest detection came within 300 s of the first |
| `KillChain.BonusExactly` | src/agent/analysis/analyzer.c:334-348 | on every ordered run the bonus is given as documented (if and only if EXPLOIT was reached within 5 minutes of the first detection) exactly if, in the first 5 minutes, an exfiltration came with an exploit, and later, no exploit was that prompt |
| `KillChain.BonusWithoutExploit` | src/agent/analysis/analyzer.c:344-348 | a concrete run: a first ICMP flood scores 80 although no exploit was seen |
| `KillChain.PromptExploitLosesBonus` | src/agent/analysis/analyzer.c:344-348 | a concrete run: an exploit after 99 seconds, and a score of 50 at the next detection |
| `BruteForce.AlertMeansThirty` | src/agent/analysis/analyzer.c:558-570 | an alert rests on at least 30 attempts within the last 60 seconds |
| `BruteForce.AlertExactly` | src/agent/analysis/analyzer.c:558-570 | an attempt alerts if and only if it is the last of 30 within 60 seconds and finds the window the first of them left still open |
| `BruteForce.FiftyNineAlert` | src/agent/analysis/analyzer.c:563-569 | any 59 attempts within 60 seconds raise an alert among them |
| `BruteForce.FiftyEightMayPass` | src/agent/analysis/analyzer.c:563-569 | for every start, 58 attempts within one second that never alert |
| `BruteForce.RunCounts` | src/agent/analysis/analyzer.c:563-568 | the window holds exactly the last counted attempts and is at most a minute long |
| `DnsName.ExtractDnsName` | src/agent/analysis/analyzer.c:478-498 | on arbitrary bytes: terminates, reads only the payload, writes fewer than out_size bytes and the terminator, returns 0 for a malformed name, and otherwise leaves the specified name and the rest of the buffer as it was |
| `DnsName.CopyLabel` | src/agent/analysis/analyzer.c:491-494 | the inner loop writes the dot and as much of the label as fits |
| `DnsName.ExtractIsJoinedLabels` | src/agent/analysis/analyzer.c:478-498 | a name that fits is the joined list of the labels on the wire or rejected for being malformed; of a longer one nothing but its first out_size - 1 bytes can come out |
| `DnsName.RoundTrip` | src/agent/analysis/analyzer.c:480-498 | every name allowed by RFC 1035, sections 2.3.4 and 3.1, encoded at offset 12, comes out as its labels joined by dots, whatever surrounds it |
| `DnsName.FullDecode` | src/agent/analysis/analyzer.c:487-495 | once the buffer is full every further byte is read as a length, and the exact condition under which the cut name is still accepted |
| `DnsName.FirstLabelLength` | src/agent/analysis/analyzer.c:586-588 | the position of the first dot |
| `DnsName.SubdomainIsFirstLabel` | src/agent/analysis/analyzer.c:586-588 | which is the length of the first label unless it contains a dot |
| `Suspects.BurstBySquareRoot` | src/agent/analysis/analyzer.c:515-523 | the square-root-free test of the model is the comparison with the truncated adaptive threshold |
| `Suspects.FollowExplained` | src/agent/analysis/analyzer.c:761-871 | the record of an address is, component by component, the baseline, the brute-force counter and the kill chain run on the parts of its own packets that reach them, and a duplicate-free sample of the ports it hit |
| `Suspects.BruteForceReport` | src/agent/analysis/analyzer.c:799-812 | a reported BRUTE_FORCE rests on 30 login attempts of that address within the last minute |
| `Suspects.PortScanReport` | src/agent/analysis/analyzer.c:687-696 | a reported PORT_SCAN rests on 15 different ports hit by that address; the converse is `ScanReports.PortScanExactly` |
| `DetectorReports.CountersCount` | src/agent/analysis/analyzer.c:533-611 | each counter of a record is the number of packets of its kind that the address sent since its creation |
| `DetectorReports.ReplyBytesCount` | src/agent/analysis/analyzer.c:619-621 | the response total is the length of its DNS responses modulo 2^64 |
| `DetectorReports.RequestBytesCount` | src/agent/analysis/analyzer.c:619-621 | the request total is the length of its DNS requests that were not reported as DNS_TUNNEL, modulo 2^64 |
| `DetectorReports.SuspiciousCount` | src/agent/analysis/analyzer.c:590-607 | the suspicious counter is the number of its packets that query a suspicious name, each judged with the baseline and the count at that packet |
| `DetectorReports.IcmpFloodReport` | src/agent/analysis/analyzer.c:703-716 | ICMP_FLOOD is reported for an ICMP packet if and only if it is at least the 21st before calibration, or above the adaptive threshold after |
| `DetectorReports.StealthReport` | src/agent/analysis/analyzer.c:533-550 | NULL_SCAN and XMAS_SCAN are reported if and only if the packet is at least the third probe of its kind |
| `ScanReports.SynFloodReport` | src/agent/analysis/analyzer.c:510-524 | SYN_FLOOD is reported if and only if the packet is an initial SYN no stealth scan is reported for and, before calibration, at least the 101st such SYN of the address, or after it above the adaptive threshold |
| `ScanReports.SynfinReport` | src/agent/analysis/analyzer.c:545-550 | SYNFIN_SCAN is reported if and only if the packet has SYN and FIN, is not reported as XMAS_SCAN, and is at least the third of its kind |
| `ScanReports.AttemptsAreLogged` | src/agent/analysis/analyzer.c:558-562 | the logged attempts are exactly the initial SYNs to ports 21, 22 and 3389 that no earlier detector reports |
| `ScanReports.BruteForceExactly` | src/agent/analysis/analyzer.c:558-570 | BRUTE_FORCE is reported if and only if the packet is such an attempt and the window then holds at least 30 |
| `ScanReports.PortsAreStored` | src/agent/analysis/analyzer.c:687-694 | the stored ports are the first 15 different ones of the TCP packets that reach the detector, in order |
| `ScanReports.PortScanExactly` | src/agent/analysis/analyzer.c:687-696 | PORT_SCAN is reported if and only if the packet reaches the detector with a port that is not among the first 15, and by then at least 15 different ports have reached it |
| `ScanReports.PortScanVerdict` | src/agent/analysis/analyzer.c:736-872 | the same equivalence for the verdict on any packet of a tracked address in any capture |
| `ScanReports.SightingsAreLogged` | src/agent/analysis/analyzer.c:783-842 | what a packet counts as in the baseline: every ICMP, TCP and UDP packet once, with a new port if it is not among those first 15, and as DNS if either port is 53 |
| `ScanReports.DetectionsAreLogged` | src/agent/analysis/analyzer.c:820-823 | the kill chain is advanced by exactly the reported attacks, at the times of their packets |
| `DetectorReports.DnsTunnelReport` | src/agent/analysis/analyzer.c:578-611 | DNS_TUNNEL is reported if and only if the packet queries a suspicious name and is at least the tenth packet of that address to do so |
| `DetectorReports.AmplificationReport` | src/agent/analysis/analyzer.c:619-626 | AMPLIFICATION is reported if and only if the packet is a DNS message not reported as DNS_TUNNEL that leaves at least 100 request bytes and more than ten times as many response bytes, modulo 2^64 |
| `DetectorReports.AmplificationRests` | src/agent/analysis/analyzer.c:619-626 | so the address has sent at least 100 bytes of DNS requests, and more than ten times the counted ones in responses while ten times these fit 64 bits |
| `DetectorReports.BruteForceVerdict` | src/agent/analysis/analyzer.c:736-872 | in any capture with ordered timestamps a BRUTE_FORCE verdict rests on 30 login attempts of its source within the last minute |
| `DetectorReports.FiftyNineVerdict` | src/agent/analysis/analyzer.c:736-872 | in any capture with ordered timestamps 59 attempts of one address that reach the counter within a minute get the verdict BRUTE_FORCE for one of them |
| `SuspectTable.ActiveKeeps` | src/agent/analysis/analyzer.c:417-430 | cleanup keeps exactly the entries idle for less than 300 s, in their order |
| `SuspectTable.CleanedLookup` | src/agent/analysis/analyzer.c:417-430 | seen from one address: its record stays unless a cleanup was due (60 s after the last one) and it was idle for 300 s |
| `SuspectTable.TouchLookup` | src/agent/analysis/analyzer.c:432-449 | find-or-create keeps at most 100 distinct addresses, touches or creates one record, refuses only when full, and changes no other record |
| `SuspectTable.AnalyzeLookup` | src/agent/analysis/analyzer.c:736-872 | a packet changes the record of its own source only, as the detectors say, and its report is about that record |
| `SuspectTable.Isolation` | src/agent/analysis/analyzer.c:736-872 | on every capture the record of an address is the one it would have alone, given only its own packets, the packet times and whether the table had room |
| `SuspectTable.OthersDoNotInterfere` | src/agent/analysis/analyzer.c:736-872 | two captures that look alike to an address leave the same record and report its next packet alike |
| `SuspectTable.RecordIsAutomaton` | src/agent/analysis/analyzer.c:417-449 | the record of a tracked address is the per-address automaton run on exactly its own packets since its last creation |
| `SuspectTable.VerdictSince` | src/agent/analysis/analyzer.c:736-872 | the verdict on the last packet of an address is what its automaton, run on its packets since the creation of its record, reports |
| `SuspectTable.VerdictIsReported` | src/agent/analysis/analyzer.c:736-872 | the verdict on a packet of a tracked address is what that automaton reports, and an address without a record gets none |
| `SuspectTable.RecordMeaning` | src/agent/analysis/analyzer.c:736-872 | so on every capture with positive times its kill chain describes its current incident and its baseline its own windows |
| `SuspectTable.ArpKnowsFirstClaims` | src/agent/analysis/analyzer.c:638-682 | the ARP table holds the first address each MAC claimed, for at most 256 MACs, and all of them while it has room |
| `SuspectTable.SpoofReport` | src/agent/analysis/analyzer.c:638-682 | ARP_SPOOF is reported, with the claimed address and score 20, only if the MAC first claimed another address, and, while the table has room, if and only if |
| `FrameReads.FrameReadsBack` | src/agent/analysis/analyzer.c:739-768 | for all link addresses, header fields, options and contents: parsing the built IPv4 frame gives exactly its source address, its segment and its length |
| `FrameReads.TcpReadsBack` | src/agent/analysis/analyzer.c:802-806 | for all ports, flags and other contents the TCP segment reads back as its destination port and flags |
| `FrameReads.UdpReadsBack` | src/agent/analysis/analyzer.c:835-846 | for all ports and payloads the UDP segment reads back as both ports and the payload |
| `FrameReads.OtherSegments` | src/agent/analysis/analyzer.c:783-871 | protocol 1 is ICMP whatever follows; a TCP or UDP header cut short, or another protocol, is nothing the detectors look at |
| `FrameReads.CutFrame` | src/agent/analysis/analyzer.c:757-766 | a frame cut inside its IPv4 header is ignored; cut behind it, it keeps its source and the content that is left |
| `FrameReads.OtherEtherType` | src/agent/analysis/analyzer.c:741-755 | frames of other types than IPv4 and ARP are ignored |
| `FrameReads.ArpReadsBack` | src/agent/analysis/analyzer.c:638-650 | an ARP frame reads back as its operation and the two addresses of its sender |
| `FrameReads.BlockCovers` | src/agent/analysis/analyzer.c:35-62 | a home block made of an address and a prefix length covers exactly the addresses that agree with it in the first prefix bits |
| `FrameReads.HomeIsQuiet` | src/agent/analysis/analyzer.c:770-773 | a packet from a home address touches no record and is not published |
| `FrameReads.PublishesRecord` | src/agent/analysis/analyzer.c:792-868 | field by field, what is published for an analysed packet: its source, port, protocol, length and verdict, and the stage and score its record has afterwards |
| `Analyzer.Engine.CleanupSuspects` | src/agent/analysis/analyzer.c:417-430 | the in-place compaction leaves the filtered table |
| `Analyzer.Engine.FindOrCreateSuspect` | src/agent/analysis/analyzer.c:432-449 | the index of the touched or created record, or -1 and no change when the table is full |
| `Analyzer.Engine.IsHomeIp` | src/agent/analysis/analyzer.c:57-62 | whether some configured block covers the address |
| `Analyzer.Engine.UpdateBaseline` | src/agent/analysis/analyzer.c:229-274 | updates the baseline of one record to the specified one and nothing else |
| `Analyzer.Engine.DetectSynFlood` | src/agent/analysis/analyzer.c:510-524 | counts initial SYNs of one record; fixed threshold before calibration, adaptive after |
| `Analyzer.Engine.DetectStealthScan` | src/agent/analysis/analyzer.c:533-550 | the three flag counters in order, returning at the first that reaches 3 |
| `Analyzer.Engine.DetectBruteForce` | src/agent/analysis/analyzer.c:558-570 | the window counter for initial SYNs to ports 21, 22 and 3389 |
| `Analyzer.Engine.DetectDnsTunnel` | src/agent/analysis/analyzer.c:578-611 | decodes the name, counts queries and suspicious ones, alerts from the tenth suspicious one on |
| `Analyzer.Engine.DetectAmplification` | src/agent/analysis/analyzer.c:619-626 | adds to one of two 64-bit totals and compares them tenfold |
| `Analyzer.Engine.DetectPortScan` | src/agent/analysis/analyzer.c:687-696 | stores a new port while there is room; alerts on every new port once 15 are stored |
| `Analyzer.Engine.DetectIcmpFlood` | src/agent/analysis/analyzer.c:703-716 | counts ICMP packets of one record; fixed threshold before calibration, adaptive after |
| `Analyzer.Engine.DetectArpSpoof` | src/agent/analysis/analyzer.c:638-682 | learns or checks one MAC and leaves the rest of the ARP table alone |
| `Analyzer.Engine.AdvanceKillChain` | src/agent/analysis/analyzer.c:361-403 | advances the kill chain of one record and nothing else |
| `Analyzer.Engine.InspectTcp` | src/agent/analysis/analyzer.c:787-803 | the order of the TCP detectors, with the port looked up before the baseline update |
| `Analyzer.Engine.InspectUdp` | src/agent/analysis/analyzer.c:825-857 | the order of the UDP detectors and when each is skipped |
| `Analyzer.Engine.AnalyzePacket` | src/agent/analysis/analyzer.c:736-872 | state and report after one packet are those of the value-level dispatcher, on every input |
| `Analyzer.AnalyzeCapture` | src/agent/capture/capture.c:23-26 | a capture analysed packet by packet ends in the state the results about runs speak of, with their verdicts |
| `TagEscape.LpEscape` | src/server/nta_influx.c:58-72 | the buffer holds the escaped kept prefix and its terminator, for every capacity |
| `TagEscape.KeptFits` | src/server/nta_influx.c:62-69 | the prefix is cut only when fewer than two bytes are left beside the terminator |
| `TagEscape.KeptWhole` | src/server/nta_influx.c:62-69 | a value whose escaped form leaves two bytes of the buffer free is never cut |
| `TagEscape.TruncationIsPrefix` | src/server/nta_influx.c:58-72 | the escaped text decodes to a prefix of the value for every capacity: no escape pair is split |
| `TagEscape.ReadsBack` | src/server/nta_influx.c:58-72 | a value not ending in a backslash reads back from in front of a separator |
| `TagEscape.Swallows` | src/server/nta_influx.c:64-68 | a value ending in a backslash always swallows the separator |
| `TrafficPoint.BuildTrafficPoint` | src/server/nta_influx.c:94-228 | returns the length of the whole line and leaves it in the buffer, or 0 if and only if fewer than 64 bytes are free or the line does not fit, without touching what precedes it |
| `TrafficPoint.Put` | src/server/nta_influx.c:135-139 | one checked `snprintf`: appends the text, or reports that it was cut |
| `TrafficPoint.PutOptional` | src/server/nta_influx.c:141-158 | an optional tag is printed escaped, and a missing or empty one not at all |
| `TrafficPoint.PutIoc` | src/server/nta_influx.c:162-171 | the two indicator tags |
| `TrafficPoint.PutAsn` | src/server/nta_influx.c:175-189 | the network tag, and its organisation only with it |
| `TrafficPoint.PutFields` | src/server/nta_influx.c:191-226 | the fields in order, the optional ones only when present, and the newline |
| `PointReads.AgentTold` | src/server/nta_influx.c:109-139 | under `agent_id` a receiver finds the agent, or "unknown" |
| `PointReads.AddressTold` | src/server/nta_influx.c:109-139 | under `src_ip` the source address, or "0.0.0.0" |
| `PointReads.ProtocolTold` | src/server/nta_influx.c:113-139 | under `protocol` the protocol, or "UNKNOWN" |
| `PointReads.AttackTold` | src/server/nta_influx.c:115-158 | under `attack_type` the attack, and nothing if it is missing or empty |
| `PointReads.StageTold` | src/server/nta_influx.c:116-158 | under `kill_chain_stage` the stage |
| `PointReads.MitreTold` | src/server/nta_influx.c:117-158 | under `mitre` the techniques |
| `PointReads.IocTold` | src/server/nta_influx.c:162-171 | under `ioc_source` the list that names the address |
| `PointReads.IocHitTold` | src/server/nta_influx.c:162-171 | `ioc_hit` is there, and 1, if and only if such a list is |
| `PointReads.AsnTold` | src/server/nta_influx.c:175-189 | under `asn` the network number behind "AS" |
| `PointReads.OrganisationTold` | src/server/nta_influx.c:175-189 | under `asn_org` its organisation, only with it |
| `PointReads.FieldsReadBack` | src/server/nta_influx.c:191-226 | splitting the fields gives port, bytes and scan flag, then score, coordinates and reputation as far as present, each number under its name |
| `TrafficBatch.TagsReadBack` | src/server/nta_influx.c:135-189 | splitting the printed tags at unescaped separators and decoding returns exactly the ordered list if and only if no value ends in a backslash |
| `TrafficBatch.LineReadsBack` | src/server/nta_influx.c:135-228 | so a built line splits into measurement, kept tags and fields under exactly that condition |
| `TrafficBatch.LineIsLine` | src/server/nta_influx.c:224-226 | its only newline is the last character if and only if no kept tag value and no number contains one |
| `TrafficBatch.WriteTraffic` | src/server/nta_influx.c:313-329 | the payload and its event count are those of the reference body |
| `LineBatch.BodyIsWholeLines` | src/server/nta_influx.c:317-329 | the body is the in-order concatenation of complete lines of a subsequence of the events, within the buffer |
| `LineBatch.TakenExactly` | src/server/nta_influx.c:320-325 | an event is in it if and only if 64 of the 16384 bytes were left behind the lines before it and its line fits |
| `TrafficBatch.BatchReadsBack` | src/server/nta_influx.c:301-330 | a receiver that splits at newlines gets one line for each taken event, and from each its tags and fields if and only if no kept value ends in a backslash |
| `FieldEscape.LpEscapeStrField` | src/server/nta_influx.c:413-433 | the buffer holds the escaped kept prefix and its terminator, for every capacity |
| `FieldEscape.EscapeNarrative` | src/server/nta_influx.c:480-483 | with twice the length plus 16 bytes the narrative is never cut |
| `FieldEscape.QuotedReadsBack` | src/server/nta_influx.c:413-433 | the closing quote is found where it was written and the text between decodes to the narrative without carriage returns |
| `FieldEscape.CutReadsBack` | src/server/nta_influx.c:413-433 | from any smaller buffer it decodes to a prefix |
| `Chains.HashIp` | src/server/nta_abuse.c:103-107 | the loop, on 32-bit words, computes the specified hash |
| `Chains.HashVectors` | src/server/nta_abuse.c:102-107 | that hash has the published values of 32-bit FNV-1a for the empty text, "a" and "foobar" |
| `Chains.PrivateDotted` | src/server/nta_abuse.c:93-100 | of all IPv4 addresses exactly 127/8, 10/8, 172/8 and 192.168/16 are private |
| `Chains.PutLookup` | src/server/nta_abuse.c:124-143 | a put changes the answer for its own key only, none for a key of 46 characters or more, and keeps every entry in its bucket and every key unique |
| `Chains.PutIsMapUpdate` | src/server/nta_abuse.c:124-143 | the finite map a table stands for is updated at one key |
| `Chains.LookupIsMap` | src/server/nta_abuse.c:112-122 | walking the chain answers from that map |
| `Chains.PushLookup` | src/server/nta_geoip.c:88-102 | prepending without a search also changes the answer for its own key only |
| `Chains.Table.Get` | src/server/nta_abuse.c:112-122 | the walk finds what the table holds for the key |
| `Chains.Table.Store` | src/server/nta_abuse.c:124-143 | overwrites the key's entry in place, or prepends one |
| `Chains.Table.Insert` | src/server/nta_ioc.c:64-79 | prepends only an unknown key that is short enough, with the return codes -1, 0 and 1 |
| `AbuseCache.Abuse.Score` | src/server/nta_abuse.c:281-305 | score, query and new table of one call, for private, cached, expired and unknown addresses |
| `AbuseCache.HoldsLastAnswer` | src/server/nta_abuse.c:281-305 | after any run the table maps every queried address to the answer of its last query, to expire `ttl` seconds later for a score and `negTtl` seconds later for a failure |
| `AbuseCache.QueriesAreSound` | src/server/nta_abuse.c:281-305 | the reference list of queries has exactly the calls that asked the API |
| `AbuseCache.ServesLastAnswer` | src/server/nta_abuse.c:112-122 | a call asks the API if and only if there was no query yet, or the last one is more than `ttl` seconds ago and gave a score, or more than `negTtl` seconds ago and failed; otherwise it is served that answer |
| `AbuseCache.NextQueryAfterExpiry` | src/server/nta_abuse.c:297-302 | consecutive queries are more than `ttl` apart after a score and more than `negTtl` apart after a failure |
| `AbuseCache.PrivateIsNeverAsked` | src/server/nta_abuse.c:283-283 | a private address is answered -1 without a query, and nothing is stored |
| `AbuseCache.QuerySpacing` | src/server/nta_abuse.c:297-302 | any two queries for a cacheable address are more than `ttl` seconds apart if the earlier one gave a score and more than `negTtl` if it failed, and k further ones take k times the shorter lifetime plus one |
| `AbuseCache.QueryBudget` | src/server/nta_abuse.c:297-302 | so there are at most 1 + T / (shorter lifetime + 1) of them in T seconds |
| `AbuseCache.LongKeysAlwaysQuery` | src/server/nta_abuse.c:126-126 | an address of 46 characters or more is queried every time |
| `WhoisCache.HoldsLastStored` | src/server/nta_whois.c:276-317 | over every interleaving of lookups around the unlocked query each address has at most one entry, in its bucket, and it is the last one stored |
| `WhoisCache.ReadsLastStored` | src/server/nta_whois.c:230-240 | a lookup is answered at once with what the last finished query found, if and only if that query began at most `ttl` seconds ago and found data, or at most 300 and found none; otherwise the thread goes out to query |
| `WhoisCache.SlowQueryWins` | src/server/nta_whois.c:288-316 | the last to finish wins: a slow query replaces what one begun after it found |
| `WhoisCache.PrivateIsNeverQueried` | src/server/nta_whois.c:276-279 | a private address is answered with nothing, at once, and leaves no trace |
| `WhoisCache.Whois.TryCache` | src/server/nta_whois.c:230-240 | the first critical section reads the table |
| `WhoisCache.Whois.Remember` | src/server/nta_whois.c:312-315 | the second one stores with the lifetime that goes with the answer |
| `GeoCache.LookupIsTransparent` | src/server/nta_geoip.c:185-197 | over every interleaving a lookup returns what the two uncached database lookups give, and nothing for a private address |
| `GeoCache.UncachedTells` | src/server/nta_geoip.c:135-183 | field by field, what the two databases fill in, and the zeros where they are closed or know nothing |
| `GeoCache.QueriesExactly` | src/server/nta_geoip.c:185-197 | over every interleaving a lookup goes to the databases if and only if the address is not private and no query for it has finished that fits an entry |
| `GeoCache.QueriesAreBounded` | src/server/nta_geoip.c:185-197 | so an address of up to 45 characters costs at most one database query for each thread, ever |
| `GeoCache.RunKeepsInv` | src/server/nta_geoip.c:74-102 | all entries of an address, duplicates included, agree with the databases |
| `GeoCache.DuplicatesAreBounded` | src/server/nta_geoip.c:96-99 | an address never has more entries, stored or under way, than there are threads |
| `GeoCache.GeoLookup.QueryDatabases` | src/server/nta_geoip.c:135-183 | fills the result field by field from the open databases, with the organisation cut to 95 characters |
| `IocTable.FirstListWins` | src/server/nta_ioc.c:120-138 | the loaded map gives each address the first usable list that names it, and holds nothing else |
| `IocTable.Ioc.Load` | src/server/nta_ioc.c:84-153 | the chains stand for that map, the counter is its size, and an empty map gives no table |
| `IocTable.Ioc.Insert` | src/server/nta_ioc.c:64-79 | one insertion on the map, with the three return codes |
| `IocTable.Ioc.MatchIp` | src/server/nta_ioc.c:158-165 | answers from the map, and nothing for the empty string |
| `WorkerPool.TrafficPool.SpawnOneLocked` | src/server/nta_server.c:411-434 | fills the lowest free slot with a fresh worker id; a failed creation leaves the slot free but uses the id |
| `WorkerPool.TrafficPool.ScaleUp` | src/server/nta_server.c:445-455 | one spawn if the pool is below its slots, and the resulting size |
| `WorkerPool.TrafficPool.BeginDown` | src/server/nta_server.c:457-468 | stops the worker in the highest active slot, which stays taken |
| `WorkerPool.TrafficPool.FinishDown` | src/server/nta_server.c:472-478 | frees that slot after the join |
| `WorkerPool.ApplyKeepsInv` | src/server/nta_server.c:411-479 | scale-ups between the two critical sections of a scale-down keep the count, the slots and the running workers in step |
| `WorkerPool.CountIsExact` | src/server/nta_server.c:411-479 | after any interleaving the count is the number of active slots and of workers started and not joined, and no worker has been told to stop but the one being joined |
| `WorkerPool.StartOutcome` | src/server/nta_server.c:411-455 | on every run a scale-up takes the lowest free slot and a fresh id if and only if fewer workers run than there are slots; without a thread the id is used up and the slot stays free |
| `WorkerPool.StopOutcome` | src/server/nta_server.c:457-468 | on every run a scale-down tells exactly the worker in the highest active slot to stop, if there is one |
| `WorkerPool.NoRespawnBeforeJoin` | src/server/nta_server.c:411-479 | a slot gets a new worker only after the old one was joined, and always a new id |
| `WorkerPool.SlotKeepsWorkerUntilJoin` | src/server/nta_server.c:411-479 | over every run a slot gives up its worker only at a step that joins that very worker, which had been told to stop |
| `WorkerPool.OnlyJoinEnds` | src/server/nta_server.c:466-475 | a worker leaves the pool only by being told to stop and joined |
| `WorkerPool.OverlappingDownsMiscount` | src/server/nta_server.c:457-479 | two overlapping scale-downs would choose one slot and count it out twice |
| `Scaler.Clamp` | src/server/nta_scaler.c:79-80 | the configured bounds satisfy 1 <= min <= max, stay as they are if they already do, and are never lowered; nothing else changes |
| `Scaler.StartPool` | src/server/nta_server.c:598-606 | the initial spawns: the pool after those up to the first failure, and the global stop if and only if there was one |
| `Scaler.StartedPrefix` | src/server/nta_server.c:598-606 | the started pool has one worker for each thread up to the first failure, in its first slots, and without a failure is the pool the scaler begins with |
| `Scaler.ScalerLoop` | src/server/nta_scaler.c:155-208 | over every sequence of polls the loop leaves the pool and the idle mark of the reference run, and a disabled scaler leaves the pool alone |
| `Scaler.SizeStaysInRange` | src/server/nta_scaler.c:188-208 | on every run the size stays within [min(initial, min), max(initial, max)] and the active slots are a prefix |
| `Scaler.ScaleDownFollowsIdleness` | src/server/nta_scaler.c:197-205 | every scale-down ends an idle window of the configured length, counted from the later of the first idle poll and the previous scale-down, in which every successful poll saw an empty queue and the pool did not change |
| `Scaler.QuietPoolShrinks` | src/server/nta_scaler.c:197-205 | and conversely: once every successful poll has seen an empty queue and the pool has not changed for the configured time, an empty poll above the minimum takes exactly one worker away |
| `Scaler.GrowsExactly` | src/server/nta_scaler.c:188-195 | a poll adds a worker if and only if it sees the threshold, the pool is below its maximum and the thread can be created; no poll changes the size by more than one |
| `Scaler.ScaleDownsAreSpaced` | src/server/nta_scaler.c:199-205 | with a clock that does not run back any two scale-downs are that far apart |
| `Scaler.ReactsAtOnce` | src/server/nta_scaler.c:188-197 | a backlog at the threshold is answered at once below the maximum, and the pool never shrinks at or below the minimum |

## Left out

- Weak memory: the atomic steps are interleaved sequentially; reorderings that acquire and release permit beyond that are not modelled.
- 32-bit targets: `size_t` is 64 bits wide, which is the branch of `next_pow2` that is modelled.
- Floating point: rounding of `double`, and `log2`; the entropy verdict on a DNS name is an arbitrary boolean of each packet.
- Counters of type `int` in a suspect, a baseline and the pool do not wrap at 2^31; the two byte totals and the ring counters do wrap at 2^64.
- Allocation failures: `calloc`, `malloc` and `strdup` succeed, except for the batch buffer of the publication thread.
- RingBuffer.RingBuffer.Push: is the sequential object; interleavings of its single accesses are the subject of `RingMachine`.
- Chains of the hash tables are sequences in an array of buckets; the linked nodes, their aliasing and their release are not modelled.
- AbuseCache.Abuse.Score: takes the answer of the API as an input even where it is not asked for; the HTTP request itself is not modelled.
- WHOIS response parsing, referral following and TCP I/O: the outcome of a query is an arbitrary record.
- TrafficPoint.BuildTrafficPoint: numbers enter as the text `printf` makes of them, so the conversions `%.6g`, `%.6f` and `%lld` are not modelled.
- JSON parsing: events, lists and their optional fields enter as values; a C string holds no NUL.
- `pool_join_all`, `pool_destroy` and the global stop, which run beside the scaler.
- `capture_thread` before the packet loop, home-network discovery, thread priorities, sleeps and metrics formatting.
- `analyzer_add_home_cidr` text parsing; the configured blocks are an input.
- The event collector and its report for replay mode.
- Publisher and consumer connection code, TLS, health endpoint, narrator prompt and back ends, metrics and narrative writers beyond their escaping, Windows service and command line.
- Python and shell tools, dashboards, container and installer files.
