# ThreatLens: a verified model of the detection pipeline

ThreatLens reads network captures, folds packets into flows, records flow events in sliding
windows, asks detection engines for a verdict, correlates verdicts into incidents, and keeps
thresholds and suppression rules in a store that two processes share. This project models the
parts where a small slip would silently lose or invent traffic, alerts or settings, and proves
what those parts promise over all inputs and all runs.

The modules follow the program.

- Packets: `Checksum` (Internet checksum), `DnsNames` (wire-format names), `TlsSni` (server name
  of a ClientHello), `Packets` (Ethernet/IPv4/TCP/UDP builders and parser), `WireFrames` (frames with
  tags and options), `Capture` (libpcap files), `Flows`
  (aggregation into flows). `Bytes`, `Wrappers`, `Chronology` (timestamped items and the stable
  sort), `Sequences` and `Decimal` hold the shared vocabulary.
- Windows and engines: `WindowStore` (both backends of the sliding-window store),
  `WindowClocks` (what they return when clocks run back), `Rounding`,
  `Statistics`, `Ingest` (what an event records, and whole runs), `Beaconing`, `BeaconVerdicts` (its
  exact condition), `Recon`, `Pipeline`.
- Correlation: `Alerts`, `Incidents` (incident ids), `Aggregator` (stage sets and scores).
- Configuration: `Thresholds`, `ThresholdTable`, `RuntimeConfig`, `Validation` (what is accepted, and
  what that keeps), `Suppression`.
- `UidJoin` (the Zeek log shipper) and `Trends` (the alert histogram).

Objects the program updates in place are classes (`PcapWriter`, `SlidingWindowStore`,
`AlertAggregator`, `DetectionPipeline`, `RuntimeConfigStore`, `SuppressionStore`,
`ZeekLogShipper`). The window store, the aggregator, the pipeline and the shipper carry a ghost log
of the calls made on them; suppression stores share a ghost log of the steps of all their processes
through the hash they share, and a step of one leaves the others' stores in accord with that log
(`OtherStoreStaysValid`). Their methods tie the new state to a function of that log, and the
theorems are about those functions, so they hold of every run. `RuntimeConfigStore` carries the
restart property itself in `Valid()`: once it is in step with the hash, every method keeps it so.
Loops are methods with invariants. Everything else is functions and lemmas.

Numbers that Python holds as floats are real numbers here. `round` is modelled as round-half-even
on reals, integers are unbounded as in Python, and every fixed-width field is a bounded type.

Each main result ties the code to something that is not its own body: an inverse (parser
against builder, decoder against encoder, load against save), an independent reference (RFC 1071
arithmetic, grouping of a packet list, filtering of a full history, sessions cut at gaps, latest
line of a log), or an exact characterization of when it succeeds.

## Where the code and its documentation part

Each item names the theorem that shows the gap and the one that says exactly when the code does
keep the promise.

- `ip_checksum` folds twice. That is RFC 1071 for every input of a given length exactly when the
  length is at most 131076 bytes (`CorrectExactlyUpTo131076Bytes`).
- The DNS decoder takes every length byte below 192 for a label, so it reads labels of up to 191
  bytes where RFC 1035 allows 63. An encodable domain survives the trip exactly when it is empty or
  each label has 1 to 191 characters (`QueryRoundTripExactly`).
- `extract_tls_sni` ignores the record length. For a ClientHello without extension block it reads the
  bytes behind the record as one (`NoExtensionBlockReadsOn`). A name comes out exactly when those bytes
  hold a chain of complete extensions that leads to a server_name header (`NoExtensionBlockNameExactly`,
  for instance `TrailerCanBeReported`).
- `get_events` documents the interval from `now - window` to `now`. One pipeline is fed dns.log,
  ssl.log and conn.log one after the other (`backend/app/main.py:152-155`), so `now` can be behind a
  clock already used on the key. After calls with any clocks, the sorted set returns exactly the events
  above its cutoff that outlasted every call since they arrived (`ScoresReadIsKept`), which is the
  documented interval if and only if that singles out the events of the interval (`ScoresExactly`);
  the deque returns the documented interval if and only if it has popped no event of it and holds none
  that is older (`DequeExactly`), and always returns an event of it that no later clock was more than
  the window ahead of (`UnexpiredIsReturned`). Otherwise both can miss events (`BehindQueryMisses`),
  and the sorted set can return events from the future (`FutureEventIsReturned`). For a `now` not
  behind such a clock the conditions become: no expired event arrived behind one that is still fresh
  (deque, `QueryIsExactUnlessLate`), no event is stamped `now - window` (sorted set,
  `ScoresExactUnlessBoundary`); in order, the two differ by exactly the latter
  (`BackendsAgreeUpToBoundary`).
- The beaconing engine looks an event without a flow id up under `src->dst`, while the pipeline
  records it under `src:port->dst:port`, which is never the same text (`FallbacksDiffer`). Its verdict depends on nothing but the heartbeats recorded
  under the text it looks up (`JudgedOnSeen`). In any in-order run, with any other traffic that is
  not itself recorded under `src->dst`, an event of a periodic flow is detected if and only if it
  carries a flow id (`PeriodicFlowDetectedExactlyWithFlowId`).
- Incident ids are sessions while event times do not run back (`SameIncidentIffSameSession`). For any
  times and windows, calls share an id exactly when a chain of calls of their source links them, each
  within its window of the one before and with the source not evicted in between
  (`SameIncidentIffSameRun`). Eviction is invisible exactly when no call follows within its window a
  source that some call has evicted (`EvictionInvisibleExactly`); a reordering that stays within the
  window of every source's last call is harmless, and three calls whose times run back far enough are
  not (`EvictionShowsWhenTimeRunsBack`).
- `apply_threshold_overrides` says a corrupt stored value can never prevent startup. It traps
  `ValueError` only; an infinite port, or an integer beyond the range of a float, raises
  `OverflowError` (`CorruptValueCanPreventStartup`, exact condition in `CoerceOverflow` and
  `ApplyOverrides`).
- A process that edits suppression rules restarts its own refresh clock with each edit, and can miss
  another process's rule through any number of reads (`BusyEditorStaysStale`). For every process, a
  read reflects a load of the hash less than the refresh interval old if and only if the refresh
  guard holds or the last load is that recent already; rules it has not written itself since are then
  what the hash held at that load (`ReadIsRecentExactly`). A process that has written nothing since
  its last load always meets the bound (`ReaderIsRecent`).
- The batch mode of the shipper and the pcap replay router read conn.log first. Then no flow is ever
  enriched (`ConnFirstNeverEnriches`). Reading dns.log, ssl.log, conn.log joins fully
  (`DnsSslConnJoins`) for the first connection of a uid and leaves later ones alone
  (`LaterConnsAreNotJoined`); reading ssl.log before dns.log keeps the fingerprint exactly of those uids that
  have no dns line (`SslDnsConnDropsFingerprint`).
- The trend histogram loses alerts stamped by `now` exactly when its buckets do not reach beyond `now`
  (`CountsEverythingIffReaches`). From any time on, it never loses one exactly when the bucket width
  divides the window (`CountsEverythingIffDivisible`).

## Model

| member | source | states |
|---|---|---|
| Checksum.IpChecksum | ingest/zeek/generate_sample_pcap.py:23-33 | the summing loop with its two folds returns the RFC 1071 checksum for every input up to 131076 bytes, odd lengths padded with zero |
| Checksum.CorrectExactlyUpTo131076Bytes | ingest/zeek/generate_sample_pcap.py:28-33 | for each length, two folds agree with one's-complement addition on all inputs of that length if and only if the length is at most 131076 |
| Checksum.OnesSumIsResidue | ingest/zeek/generate_sample_pcap.py:26-30 | adding with end-around carry word by word leaves the residue of the plain sum modulo 65535 |
| Checksum.TwoFoldsSuffice | ingest/zeek/generate_sample_pcap.py:31-33 | for every sum 65538 words can reach, two folds leave that residue |
| Checksum.LongInputCanFail | ingest/zeek/generate_sample_pcap.py:31-33 | above 131076 bytes some input of every length gets a wrong checksum |
| Checksum.ChecksumOfChecksummed | ingest/zeek/generate_sample_pcap.py:23-33 | writing the checksum into the zeroed field of a non-zero header makes its checksum zero |
| DnsNames.ParseDnsName | ingest/pcap_engine.py:29-67 | the decoding loop terminates on all bytes and returns the name and next offset of the reference walk, whatever mixture of labels and pointers it meets |
| DnsNames.StripRemovesOuterDots | ingest/zeek/generate_sample_pcap.py:138 | stripping removes dots only, and only at the two ends |
| DnsNames.EncodedExactly | ingest/zeek/generate_sample_pcap.py:136-139 | a domain can be encoded exactly if each part between its dots is ASCII and at most 255 characters long |
| DnsNames.WalkWireName | ingest/pcap_engine.py:37-64 | decoding at the start of an encoded label list, anywhere in a message, returns those labels and stops at its zero byte |
| DnsNames.QueryRoundTrip | ingest/zeek/generate_sample_pcap.py:142-151 | the name read at offset 12 of a query is the domain without outer dots, and the next offset is just past the name |
| DnsNames.ResponseRoundTrip | ingest/zeek/generate_sample_pcap.py:154-161 | in a response the question and the compressed answer name both read as the domain, and the pointer consumes two bytes |
| DnsNames.QueryRoundTripExactly | ingest/pcap_engine.py:42-64 | an encodable domain reads back if and only if it is empty or all its labels have 1 to 191 characters |
| DnsNames.LongLabelIsLost | ingest/pcap_engine.py:48-64 | no bytes at any offset decode to a domain with a label of 192 characters or more |
| DnsNames.EmptyLabelIsLost | ingest/pcap_engine.py:43-46 | an inner empty label ends the decoded name early, so the domain is not returned |
| DnsNames.CompressedName | ingest/pcap_engine.py:48-67 | a partly compressed name reads as its own labels followed by those of the name it points to, anywhere else in the first 16384 bytes; it consumes its labels and the two pointer bytes |
| DnsNames.FirstPointerEndsName | ingest/pcap_engine.py:53-55 | wherever its first pointer leads, a name ends for its message just past that pointer |
| DnsNames.LoopEndsName | ingest/pcap_engine.py:37-40 | a pointer back to where the name started ends it with the labels read before |
| DnsNames.CutShortName | ingest/pcap_engine.py:50-67 | a name that runs out of the message, in a label or in half a pointer, yields the labels before the end, and the stated next offset |
| DnsNames.QueryLayout | ingest/zeek/generate_sample_pcap.py:142-151 | a query carries its id, flags 0x0100, one question, the type asked and class IN at their offsets |
| DnsNames.ResponseLayout | ingest/zeek/generate_sample_pcap.py:154-161 | a response carries its id, flags 0x8180, one question and one A record with a time to live of 300 and the address at their offsets |
| TlsSni.ExtractSni | ingest/pcap_engine.py:70-121 | the offset arithmetic with its early exits equals the reference extractor on all bytes |
| TlsSni.ScanLoop | ingest/pcap_engine.py:108-118 | the extension loop terminates and equals the reference scan |
| TlsSni.ScanFindsFirst | ingest/pcap_engine.py:108-118 | scanning laid-out extensions returns the host of the first server_name extension, or nothing if there is none |
| TlsSni.ScanExactly | ingest/pcap_engine.py:108-118 | scanning any bytes reports a name exactly when complete extensions of other kinds lead to a server_name header inside the block, and then the name behind it |
| TlsSni.ExtractedExactly | ingest/pcap_engine.py:72-121 | from a handshake record with a ClientHello whose three lists are followed by an extension block that leads to a server_name header, the name behind that header is extracted |
| TlsSni.NameFound | ingest/pcap_engine.py:72-121 | and only from such bytes |
| TlsSni.SniOfClientHello | ingest/pcap_engine.py:70-121 | for every well-formed single-record ClientHello, with anything after the record, the result is the host name of its first server_name extension |
| TlsSni.NoServerNameNoSni | ingest/pcap_engine.py:108-121 | extensions without server_name give no name |
| TlsSni.NoExtensionBlockNoSni | ingest/pcap_engine.py:102-104 | a ClientHello without extension block, with nothing behind it, gives no name |
| TlsSni.NoExtensionBlockReadsOn | ingest/pcap_engine.py:97-118 | with any bytes behind it, the result is exactly what those bytes yield when read as an extension block |
| TlsSni.NoExtensionBlockNameExactly | ingest/pcap_engine.py:97-118 | a name comes out exactly when those bytes hold a length and a chain of complete extensions that leads to a server_name header |
| TlsSni.TrailerCanBeReported | ingest/pcap_engine.py:102-118 | a host named only in bytes behind the record is reported |
| Packets.EthernetFrame | ingest/zeek/generate_sample_pcap.py:67-70 | destination, source, type and payload stand at their offsets |
| Packets.Ipv4Header | ingest/zeek/generate_sample_pcap.py:73-110 | every field of the 20-byte header stands at its offset of section 3.1 of RFC 791 |
| Packets.TcpPacket | ingest/zeek/generate_sample_pcap.py:113-126 | every field of the segment stands at its offset of section 3.1 of RFC 9293 and the payload follows |
| Packets.UdpPacket | ingest/zeek/generate_sample_pcap.py:129-133 | ports, total length and payload stand where RFC 768 puts them |
| Packets.BuiltHeaderVerifies | ingest/zeek/generate_sample_pcap.py:84-110 | the checksum of every finished IPv4 header is zero |
| Packets.FlagsNameTheirBits | ingest/pcap_engine.py:235-244 | the flag list contains a name exactly when its bit is set, each at most once |
| Packets.TcpFrameRoundTrip | ingest/pcap_engine.py:196-289 | a built TCP frame parses to its own addresses, ports, flags, payload and wire length |
| Packets.UdpFrameRoundTrip | ingest/pcap_engine.py:196-289 | a built UDP frame parses to its own addresses, ports, payload and wire length |
| Packets.DnsQueryFrameRoundTrip | ingest/pcap_engine.py:253-264 | the domain put into a DNS query frame is the domain reported for the packet |
| Packets.ClientHelloFrameRoundTrip | ingest/pcap_engine.py:246-249 | the host a ClientHello frame asks for is the server name reported for the packet |
| WireFrames.FrameIsReported | ingest/pcap_engine.py:196-289 | every IPv4 frame, with or without a VLAN tag, with any IP options and any TCP options, is reported with its own addresses, ports and flags, the payload behind the options, and the name found in it |
| WireFrames.ReportedExactly | ingest/pcap_engine.py:198-215 | a frame is reported if and only if it says IPv4, directly or behind one tag, and a whole fixed header follows |
| WireFrames.CutShort | ingest/pcap_engine.py:230-266 | a TCP or UDP header cut short is reported without ports, flags and payload |
| WireFrames.AnyHeaderLength | ingest/pcap_engine.py:213-222 | whatever IP header length a packet claims, its transport header is taken from there |
| WireFrames.AnyDataOffset | ingest/pcap_engine.py:246-249 | whatever TCP data offset a segment claims, its payload is taken from there |
| WireFrames.BuiltIsWire | ingest/zeek/generate_sample_pcap.py:67-110 | the frames of the builders are wire frames without tag and options |
| Capture.PcapWriter.AddPacket | ingest/zeek/generate_sample_pcap.py:43-44 | appends one stamped packet |
| Capture.PcapWriter.Write | ingest/zeek/generate_sample_pcap.py:46-64 | sorts the held packets in place and serializes them, or fails where a header field does not fit |
| Chronology.StableSortSpec | ingest/zeek/generate_sample_pcap.py:48 | the order is chronological and keeps packets of equal timestamp in their original order |
| Chronology.SortItems | ingest/zeek/generate_sample_pcap.py:48 | sorting neither drops nor adds a packet |
| Capture.DecodeRecords | ingest/pcap_engine.py:180-194 | the record loop ends at the first incomplete record and skips frames that do not parse |
| Capture.ReadPackets | ingest/pcap_engine.py:160-194 | reading handles both byte orders and both timestamp units, and gives nothing for other magic numbers |
| Capture.FileReadBack | ingest/pcap_engine.py:160-194 | reading a written file decodes exactly the written records, in stable timestamp order |
| Capture.AnyFormatReadBack | ingest/pcap_engine.py:164-194 | a file of either byte order and either timestamp unit, ending in anything that is no complete record, reads as what its records decode to |
| Capture.EveryFileIsRecords | ingest/pcap_engine.py:164-188 | every file with a known magic number is such a file |
| Capture.ByteOrderDoesNotMatter | ingest/pcap_engine.py:169-185 | any file, and any file of the other byte order that holds the same records, read as the same packets |
| Capture.CaptureRoundTrip | ingest/pcap_engine.py:160-289 | any capture of TCP, UDP and other IPv4 frames, tagged or not and with any options, with 32-bit epoch timestamps, writes, and reads back as one packet a frame with the frame's own fields, in stable timestamp order |
| Capture.BuiltCaptureRoundTrip | ingest/zeek/generate_sample_pcap.py:46-133 | the same for any capture of frames from the builders |
| Capture.WrittenHeader | ingest/zeek/generate_sample_pcap.py:52-54 | a written file starts with the libpcap header of version 2.4, snapshot length 65535 and link type Ethernet |
| Capture.WriteFailsExactly | ingest/zeek/generate_sample_pcap.py:56-62 | writing fails exactly when some packet is stamped a microsecond or more before 1970 or from 2^32 seconds on, or is too long for a 32-bit length |
| Capture.UnknownMagicReadsNothing | ingest/pcap_engine.py:165-178 | a file is read exactly if it starts with one of the four magic numbers |
| Capture.UnitsAgree | ingest/pcap_engine.py:190 | whole microseconds read the same from a microsecond file and from a nanosecond file |
| Capture.MicrosecondsAreClose | ingest/zeek/generate_sample_pcap.py:57-60 | a timestamp comes back less than one microsecond early and never late |
| Flows.FirstKeysCoverEachPairOnce | ingest/pcap_engine.py:313-367 | the first-seen keys name every unordered endpoint pair of the capture exactly once |
| Flows.PairsPartitionPackets | ingest/pcap_engine.py:313-367 | over those pairs, the two directions together account for every packet and byte |
| Flows.FlowsConserveTraffic | ingest/pcap_engine.py:302-367 | total packets and wire bytes over all flows equal those of the capture, in spite of the direction swap |
| Flows.NewFlowSummarizes | ingest/pcap_engine.py:339-365 | a pair's first packet starts a flow oriented by it, a SYN without ACK counted in the other direction |
| Flows.ForwardSummarizes | ingest/pcap_engine.py:318-330 | adding a forward packet keeps the flow the summary of its pair: counters, flag union, first truthy DNS and server name, hash, last timestamp |
| Flows.BackwardSummarizes | ingest/pcap_engine.py:331-338 | the same for a packet of the reverse direction |
| Flows.UntouchedSummarizes | ingest/pcap_engine.py:313-338 | packets of other pairs leave a flow's summary alone |
| Flows.FirstTruthyByPosition | ingest/pcap_engine.py:326-330 | the DNS name or server name a flow carries is that of the first forward packet with a non-empty one, and where there is none that of the first forward packet |
| Flows.Absorb | ingest/pcap_engine.py:313-365 | one iteration of the dictionary loop keeps the table the grouping of the packets read so far |
| Flows.Aggregate | ingest/pcap_engine.py:302-367 | the loop returns one flow per unordered pair, in order of first appearance, each the summary of its packets, and conserves traffic |
| Flows.ExtractFlows | ingest/pcap_engine.py:302-367 | the same from the bytes of a capture file, with duplicate-free flag lists |
| WindowStore.PopLoop | engine/features/store.py:165-167 | the popping loop equals the reference pop |
| WindowStore.PopSpec | engine/features/store.py:165-167 | popping keeps the suffix that starts at the first event the cutoff spares |
| WindowStore.OtherKeysDoNotMatter | engine/features/store.py:112-114 | what a (window, name) pair holds, in either backend, depends on the calls on that pair alone |
| WindowStore.KeyTextsAreDistinct | engine/features/store.py:112-114 | the formatted storage keys of two pairs are equal exactly when the pairs are |
| WindowStore.DequeIsSuffix | engine/features/store.py:157-167 | whatever calls were made, the deque is a suffix of the key's full history and has lost only events expired for any clock not behind |
| WindowStore.QueryMissesNothing | engine/features/store.py:207-218 | for any arrival order, a query not behind an earlier clock returns every recorded event of its window, with multiplicity |
| WindowStore.QueryIsExactUnlessLate | engine/features/store.py:207-218 | a query not behind an earlier clock returns exactly those, in arrival order, if and only if no expired event arrived behind a fresh one |
| WindowStore.QueryIsExactInOrder | engine/features/store.py:207-218 | arrivals in timestamp order read back exactly, in order |
| WindowStore.LateArrivalIsReturned | engine/features/store.py:157-167 | an event that arrives already expired behind a fresh one is returned by the deque and not by the sorted set |
| WindowStore.ScoresAreFilter | engine/features/store.py:190-205 | the pruned sorted set equals the full history filtered strictly above the cutoff, for any arrival order |
| WindowStore.BackendsAgreeUpToBoundary | engine/features/store.py:142-218 | for in-order events the deque returns what the sorted set returns plus exactly the events stamped now - window |
| WindowStore.ScoresExactUnlessBoundary | engine/features/store.py:190-202 | for any arrival order and a query not behind an earlier clock, the sorted set returns the documented interval exactly when no event is stamped now - window |
| WindowStore.FutureEventIsReturned | engine/features/store.py:192-194 | queried behind a clock already used, the sorted set returns an event from the future and the deque does not |
| WindowClocks.ScoresReadIsKept | engine/features/store.py:142-202 | after calls with any clocks, the sorted set returns exactly the events above the query's cutoff and above the cutoff of every call on the key since they arrived |
| WindowClocks.ScoresExactly | engine/features/store.py:190-202 | after calls with any clocks, that is the documented interval if and only if an event of the history lies in the interval exactly when it is kept |
| WindowClocks.DequeIsAlwaysSuffix | engine/features/store.py:157-167 | after calls with any clocks, the deque is a suffix of the history |
| WindowClocks.DequeExactly | engine/features/store.py:207-218 | after calls with any clocks, the deque returns the documented interval in order of arrival if and only if it has popped no event of it and holds none that is older |
| WindowClocks.UnexpiredIsReturned | engine/features/store.py:207-218 | an event of the interval that no clock since its arrival is more than the window ahead of is always returned by the deque |
| WindowClocks.BehindQueryMisses | engine/features/store.py:157-218 | behind a clock more than the window ahead, both backends miss an event of the interval |
| WindowStore.ReadIsWithin | engine/features/store.py:169-218 | in order, either backend reads the events of the window, the sorted set without its lower end |
| WindowStore.QueryIsInvisible | engine/features/store.py:190-218 | a query changes nothing that any other query at the same instant reads, of its own key or another |
| WindowStore.SlidingWindowStore.AddEvent | engine/features/store.py:120-167 | appends to the one key's window and prunes it, in whichever backend is in use |
| WindowStore.SlidingWindowStore.GetEvents | engine/features/store.py:169-218 | returns the payloads the call history determines, the deque in order of arrival and the sorted set in order of score, and prunes |
| WindowStore.SlidingWindowStore.PruneWindow | engine/features/store.py:220-256 | returns how many events it dropped, and leaves no empty deque behind |
| Rounding.Near | engine/models/beaconing_engine.py:66-66 | rounding moves a value by at most half a unit |
| Rounding.RoundIntExactly | engine/models/beaconing_engine.py:66 | rounding gives the integer within a half, and on a tie the even one |
| Statistics.SortedSpec | engine/features/metrics.py:90-91 | sorting is ordered and keeps every timestamp with its multiplicity |
| Statistics.VarianceIgnoresOrder | engine/features/metrics.py:70-99 | the inter-arrival variance does not depend on the order of the timestamps, before and after rounding |
| Statistics.GapVarianceZero | engine/features/metrics.py:86-99 | it is never negative before rounding, and for three or more timestamps zero exactly when they are equally spaced once sorted |
| Statistics.VarianceIdentity | engine/features/metrics.py:96-97 | it is the mean of the squares minus the square of the mean |
| Statistics.MeanMinimizes | engine/features/metrics.py:96-97 | no point has a smaller squared error than the mean |
| Statistics.NearVariance | engine/features/metrics.py:96-97 | values within d of one point have a variance of at most d squared |
| Statistics.AlternatingVariance | engine/features/metrics.py:96-97 | values alternating by d around a point have a variance of at least eight ninths of d squared |
| Statistics.NumeratorWithinDenominator | engine/models/beaconing_engine.py:62-64 | the lag-1 autocorrelation numerator is bounded in absolute value by the denominator |
| Statistics.ClampsNeverBind | engine/models/beaconing_engine.py:59-64 | with two or more gaps neither the clamp nor the floor on the denominator has an effect |
| Ingest.IngestToStore | engine/pipeline.py:66-116 | an event makes exactly the window records of its source, target, DNS query, probe and flow, at its own time |
| Ingest.HistoryOfRun | engine/pipeline.py:66-143 | the history of every key after a run is what its events recorded, whatever was queried in between |
| Ingest.DnsHistory | engine/pipeline.py:92-99 | a source's 60-second DNS window holds, for each of its events with a query or to port 53, the query and type or their stand-ins, at the event's time or else the clock's |
| Ingest.ProbeHistory | engine/pipeline.py:101-107 | a source's 60-second probe window holds the address and port of each of its events |
| Ingest.PacketHistory | engine/pipeline.py:82-90 | the 10-second windows hold one packet of each event for its source and one for the address and port it goes to |
| Ingest.SampleHistory | engine/pipeline.py:109-116 | the 300-second window of a flow holds the sample of each event with that flow id or, without one, between those endpoints |
| Ingest.RunHistoryInOrder | engine/pipeline.py:66-116 | an in-order run leaves every key's history in order |
| Ingest.RunReadsExactly | engine/features/store.py:169-218 | during the last event of an in-order run, a query of either backend reads exactly what the run recorded under the key within the window |
| Ingest.QueriesAreInvisible | engine/pipeline.py:123-127 | in whatever order the engines query the store for one event, each reads what it would have read alone |
| BeaconVerdicts.BeaconFiresExactly | engine/models/beaconing_engine.py:44-140 | in any in-order run, on either backend, an event yields a candidate if and only if its recent heartbeats are enough, have non-negative byte totals, a mean gap of at least the minimum period, and gaps of small variance, small relative spread or high lag-1 correlation (a single gap counting as zero); the candidate then has the stated score |
| BeaconVerdicts.SeenAreRecentSamples | engine/models/beaconing_engine.py:82-86 | those heartbeats are the samples of the last 300 seconds that the run recorded under the flow id, or without one under source and destination address |
| BeaconVerdicts.AlternatingFlowIsSilent | engine/models/beaconing_engine.py:104-109 | in any in-order run, a flow whose recent gaps alternate by d around p never yields a candidate, if d exceeds 0.17 p and eight ninths of d squared the variance threshold |
| BeaconVerdicts.FastFlowIsSilent | engine/models/beaconing_engine.py:107 | nor does a flow whose mean gap is below the minimum period, however regular |
| Beaconing.Evaluate | engine/models/beaconing_engine.py:68-142 | with either backend, the verdict is the one the call history determines, and nothing changes but the pruned window |
| Beaconing.JudgeIgnoresOrder | engine/models/beaconing_engine.py:86-114 | the order in which the store lists the window does not change the verdict |
| Beaconing.JudgedOnSeen | engine/models/beaconing_engine.py:82-86 | in any in-order run the verdict on an event depends on nothing but the recent heartbeats recorded under the text it is looked up by |
| Beaconing.FallbacksDiffer | engine/pipeline.py:71 | an event without flow id is never looked up under the text it is recorded under |
| Beaconing.RecentBeatsAreDetected | engine/models/beaconing_engine.py:82-114 | in any in-order run, an event yields a candidate if its heartbeats of the last 300 seconds are equally spaced, at or above the minimum period, and enough; earlier ones may be irregular |
| Beaconing.JitteryBeatsAreDetected | engine/models/beaconing_engine.py:82-114 | in any in-order run, an event yields a candidate if the gaps of its heartbeats of the last 300 seconds lie within a tolerated jitter of one period |
| Beaconing.SpacedHeartbeatsQualify | engine/models/beaconing_engine.py:84-109 | three or more equally spaced heartbeats at or above the minimum period always qualify, whatever the variance threshold |
| Beaconing.JitteryHeartbeatsQualify | engine/models/beaconing_engine.py:84-109 | three or more heartbeats whose gaps lie within d of p qualify, if d squared is within the variance threshold and p - d at or above the minimum period |
| Beaconing.ConfidenceRange | engine/models/beaconing_engine.py:110-114 | the confidence of every candidate lies in [0.81, 0.99] |
| Beaconing.RegularConfidence | engine/models/beaconing_engine.py:110-114 | with the shipped variance threshold, regular heartbeats score 0.92 plus 0.01 for each beyond three, at most five |
| Beaconing.BeaconCompleteness | engine/models/beaconing_engine.py:68-142 | in any in-order run, a flow with a flow id that beats at constant period yields a candidate on every heartbeat from the required count on, whatever other flows do and whatever was pruned; for Redis the required count must fit strictly into 300 seconds |
| Beaconing.BeatsHaveRoot | engine/models/beaconing_engine.py:51-53 | the square root these theorems speak of exists: such a flow shows no variance |
| Beaconing.BlindWithoutFlowId | engine/models/beaconing_engine.py:82-84 | in any in-order run with any other traffic, an event without flow id yields no candidate, however regular its flow, unless some event is recorded under the shorter text itself |
| Beaconing.PeriodicFlowDetectedExactlyWithFlowId | engine/models/beaconing_engine.py:82-84 | in any in-order run, an event of a periodic flow is detected if and only if it carries a flow id, given that nothing is recorded under the shorter text of an event without one |
| Recon.Evaluate | engine/models/recon_engine.py:37-103 | with either backend, the verdict is the one the call history determines |
| Recon.JudgeIgnoresOrder | engine/models/recon_engine.py:52-75 | the order in which the store lists the windows does not change the verdict |
| Recon.WindowOfRun | engine/features/store.py:383-403 | the payloads in a window of a run are exactly those that the events stamped inside it put there |
| Recon.ReconFiresExactly | engine/models/recon_engine.py:37-103 | in any in-order run, on either backend, the last event yields a candidate if and only if it has a SYN or no answer, carries 0 to max_probe_bytes bytes in at most two packets, and its source reached enough distinct ports or hosts within 60 seconds or endpoints within 10; the candidate then has the score of that number of targets |
| Recon.AddressesCountAlone | engine/features/store.py:262-311 | a source whose text does not begin with the target prefix is judged by its own packets only |
| Recon.ConfidenceRange | engine/models/recon_engine.py:71-75 | the confidence of every candidate lies in [0.80, 0.98] |
| Recon.ScanConfidence | engine/models/recon_engine.py:71-75 | each target beyond the required number adds 0.03, up to 0.98, fewer than three counting as three |
| Incidents.MapKnows | engine/models/aggregator.py:54-68 | for calls at any times with any windows, the map holds exactly the sources no call has evicted since their last one, each with the time and id of that call |
| Incidents.IdRecurrence | engine/models/aggregator.py:54-68 | for calls at any times with any windows, a call gets its source's previous id exactly when it follows within the window and the source was not evicted in between, and otherwise an id no earlier call had |
| Incidents.SameIncidentIffSameRun | engine/models/aggregator.py:54-68 | for calls at any times with any windows, two calls share an id if and only if calls of their source link them, each joining the one before |
| Incidents.RegularLosesNothing | engine/models/aggregator.py:64-67 | with ordered times and a fixed window, no source is evicted that its next call would have continued |
| Incidents.SameIncidentIffSameSession | engine/models/aggregator.py:54-68 | for ordered times, two calls share an id if and only if they have the same source and no gap of that source between them exceeds the window |
| Incidents.EvictionInvisibleExactly | engine/models/aggregator.py:64-67 | for calls at any times with any windows, evicting gives the same ids as a map that never forgets, and the same grouping of calls, if and only if no call follows within its window a source that was evicted |
| Incidents.EvictionIsInvisible | engine/models/aggregator.py:64-67 | for ordered times, evicting stale sources gives the same ids as a map that never forgets |
| Incidents.EvictionShowsWhenTimeRunsBack | engine/models/aggregator.py:64-67 | three calls whose times run back far enough are grouped differently |
| Aggregator.AlertAggregator.Aggregate | engine/models/aggregator.py:83-203 | one alert per candidate, with the incident id and stage set the whole call history determines, and confidence in [0,1]; nothing found changes nothing |
| Aggregator.AlertsReport | engine/models/aggregator.py:133-203 | every alert carries the flow, source, destination and time of its event, the class of its candidate, all detectors, its score with 0.03 for corroboration and 0.02 or 0.05 for two or more stages, clamped and rounded, the severity of exactly that score, and the classes found by the linked calls |
| Aggregator.AlertsShareIncident | engine/models/aggregator.py:54-68 | alerts of two calls of known sources carry incident ids, and the same one if and only if calls of their source link them |
| Aggregator.AlertsShareSession | engine/models/aggregator.py:54-68 | for ordered times, if and only if no gap of their source between them exceeds the window |
| Aggregator.MakeAlerts | engine/models/aggregator.py:151-203 | the alert loop keeps order and scores every candidate with the same stages |
| Aggregator.ConfidenceInUnitInterval | engine/models/aggregator.py:133-154 | bonuses, clamp and rounding leave every confidence in [0,1] |
| Aggregator.ConfidenceMonotone | backend/app/schemas.py:84-90 | a higher score or more stages never lower confidence or severity |
| Aggregator.ClassesSeenIsUnion | engine/models/aggregator.py:140-146 | the stage set of an incident is the union of the threat classes of all candidates found under its id |
| Aggregator.StagesAreThoseOfTheRun | engine/models/aggregator.py:137-149 | for calls at any times with any windows, the stages an alert is scored with are the classes found by the calls linked to its own |
| Aggregator.StagesAreThoseOfTheSession | engine/models/aggregator.py:137-149 | the stages an alert is scored with are those of its own session and of no other |
| Aggregator.ChainGrowth | engine/models/aggregator.py:133-154 | within one incident, a later call of the same corroboration and at least the same score never gets lower confidence or severity |
| Thresholds.CoerceIdempotent | engine/config.py:189-242 | a validated value passes validation again unchanged |
| Thresholds.PortsAccepted | engine/config.py:189-242 | a port list converts exactly when every item is a port in range, and to those ports in order |
| Thresholds.CoerceOverflow | engine/config.py:189-242 | validation escapes with OverflowError exactly for an integer beyond float range or an infinite port behind acceptable ones |
| Validation.ScalarAccepted | engine/config.py:189-242 | a scalar is accepted if and only if it denotes a finite number within the range, a whole one for an integer parameter, and becomes that number |
| Validation.ListAccepted | engine/config.py:194-218 | a port list is accepted if and only if it is not empty, every item denotes a port in range and none repeats, and becomes those ports |
| Validation.SetAccepted | engine/config.py:245-265 | a threshold is set if and only if it exists and the value is accepted, and nothing else changes |
| Validation.LiveValuesStayInRange | engine/config.py:245-335 | after any load, changes and resets, every value that differs from its baseline lies within its range |
| Validation.StoreStaysInRange | engine/runtime_config.py:144-205 | so at any moment of the store's life, also after a load that raised |
| Validation.StoredAreDifferences | engine/config.py:319-327 | after an accepted change the hash holds exactly the parameters that differ from the baseline, under rule and name joined by a dot |
| Thresholds.PartitionComposite | engine/config.py:298-327 | the composite key of a parameter takes apart into its rule and name |
| Thresholds.PartitionIsComposite | engine/config.py:298-316 | a key that names a parameter is the composite of its two parts |
| Thresholds.ApplyOverrides | engine/config.py:298-316 | in any order of entries, applying skips malformed, unknown and invalid ones, sets exactly the others, and raises exactly when some entry overflows, leaving exactly the entries before it applied |
| RuntimeConfig.OverridesRestore | engine/config.py:298-327 | writing what differs from the baseline and applying it to the baseline gives the table back |
| RuntimeConfig.PerformRestores | engine/runtime_config.py:181-218 | every change and reset keeps the stored overrides sufficient to restore the live table |
| RuntimeConfig.LoadAgain | engine/runtime_config.py:144-159 | loading once more over a restored table changes nothing |
| RuntimeConfig.RestartRestores | engine/runtime_config.py:144-218 | after any sequence of changes and resets, loading the stored overrides over the same baseline reproduces the live thresholds |
| RuntimeConfig.CorruptValueCanPreventStartup | engine/config.py:298-316 | a stored infinite port makes loading raise |
| RuntimeConfig.RuntimeConfigStore.Load | engine/runtime_config.py:144-159 | loads exactly when no stored entry overflows, and then applies all valid ones and is in step; otherwise the entries before the offending one stay applied |
| RuntimeConfig.RuntimeConfigStore.SetThreshold | engine/runtime_config.py:181-193 | a refused value changes nothing; an accepted one updates the live table, the record of overrides and the hash together, so that a restart restores the table |
| RuntimeConfig.RuntimeConfigStore.ResetThresholds | engine/runtime_config.py:195-205 | restores the baseline and clears the record of overrides and the hash |
| ThresholdTable.ShippedNames | engine/config.py:106-173 | every shipped parameter has a dot-free rule and a non-empty name |
| ThresholdTable.ShippedDefaultsAreValid | engine/config.py:50-87 | every shipped default has its parameter's kind, lies in range, and passes validation unchanged |
| ThresholdTable.ShippedConfigIsWellFormed | engine/config.py:106-173 | the restart theorem applies to the shipped parameters with any baseline of the right kinds |
| Suppression.AdvanceKeepsConsistent | engine/runtime_config.py:228-302 | every load, edit and read, by any of any number of processes, keeps every copy what the hash held at that process's last load, overlaid with its own later writes |
| Suppression.CopiesAreExplained | engine/runtime_config.py:161-302 | so in every run, from processes that have loaded nothing |
| Suppression.WriterEqualsHash | engine/runtime_config.py:239-302 | from a moment on at which it holds what the hash holds, a process that alone edits always does |
| Suppression.ReadIsRecentExactly | engine/runtime_config.py:228-237 | for every process, a read reflects a load less than the interval old if and only if the refresh guard holds or the last load is that recent; every rule it has not written since is then what the hash held at that load |
| Suppression.ReaderIsRecent | engine/runtime_config.py:228-237 | a process that has written nothing since its last load reads what the hash held at some instant less than its refresh interval earlier, however many others edit |
| Suppression.BusyEditorStaysStale | engine/runtime_config.py:239-249 | a process that reads only shortly after its own edits misses another process's rule through any number of rounds |
| Suppression.SuppressionStore.Load | engine/runtime_config.py:161-175 | the copy becomes what the hash holds |
| Suppression.SuppressionStore.RefreshIfStale | engine/runtime_config.py:228-237 | a fresh copy is kept, a stale one replaced |
| Suppression.SuppressionStore.CreateRule | engine/runtime_config.py:239-249 | writes the rule to copy and hash |
| Suppression.SuppressionStore.UpdateRule | engine/runtime_config.py:251-285 | changes the named fields of a known rule in copy and hash; an unknown id changes nothing |
| Suppression.SuppressionStore.DeleteRule | engine/runtime_config.py:287-302 | removes a known rule from copy and hash; an unknown id changes nothing |
| Suppression.SuppressionStore.GetActiveRules | engine/runtime_config.py:317-325 | returns exactly the enabled, unexpired rules of the refreshed copy, once for each id, in the order in which the copy lists its ids |
| Suppression.ActiveMembers | engine/runtime_config.py:325 | a rule is listed exactly if it is active under one of the ids |
| Suppression.ListedRulesApply | engine/runtime_config.py:325 | exactly the rules that are enabled and expire later than now, if at all, are listed |
| Suppression.UpdateSetsGivenFields | engine/runtime_config.py:266-277 | an update sets the fields it is given and the time of the update, and keeps all others |
| Suppression.EditChangesOneRule | engine/runtime_config.py:239-302 | in copy and hash alike, an edit leaves the one rule under its id and every other alone |
| Suppression.OtherStoreStaysValid | engine/runtime_config.py:228-302 | what one process does leaves the store of any other process of the hash in accord with the shared log |
| Pipeline.MatchingRule | engine/pipeline.py:42-64 | returns the first unexpired rule that matches, and nothing exactly when none does |
| Pipeline.RuleMeans | engine/pipeline.py:52-63 | a rule applies until its expiry, and its type decides which address, and whether the class, is compared |
| Pipeline.Tag | engine/pipeline.py:133-143 | tagging drops, reorders and rescores nothing and tags an alert exactly when some rule matches it |
| Pipeline.IngestAndJudge | engine/pipeline.py:118-127 | records the event before the engines look, and asks all six in order, whatever the other four query and conclude |
| Pipeline.FoundInOrder | engine/models/aggregator.py:37-44 | the candidates are the verdicts of the six engines that are present, in the order of registration |
| Pipeline.VerdictsStand | engine/models/aggregator.py:98-107 | the other engines' queries for the same event do not change what the beaconing and reconnaissance engines conclude |
| Pipeline.DetectionPipeline.ProcessFlowEvent | engine/pipeline.py:118-143 | every candidate becomes one alert of the right incident, and every alert is returned, tagged or not |
| Pipeline.PeriodicFlowAlwaysRaises | engine/pipeline.py:118-143 | end to end, an event of a periodic flow from the required count on is answered with a botnet alert about that flow, whatever the other engines find and whatever rules suppress |
| Pipeline.ScanAlwaysRaises | engine/pipeline.py:118-143 | end to end, a probe whose source has reached enough distinct targets is answered with a reconnaissance alert |
| Pipeline.CandidateIsRaised | engine/pipeline.py:118-143 | every candidate comes back as an alert about the event's flow, tagged or not |
| UidJoin.ZeekLogShipper.ProcessLogLine | ingest/producers/zeek_kafka_shipper.py:255-303 | emits the one message the log history determines for an accepted line, and none for a refused one |
| UidJoin.ZeekLogShipper.ProcessLogFile | ingest/producers/zeek_kafka_shipper.py:305-316 | processes the lines in order; the returned records are those emitted, in order |
| UidJoin.OneMessagePerLine | ingest/producers/zeek_kafka_shipper.py:255-303 | the queue holds one message for each accepted line, in order and on the topic of its log: the lookup of a dns line, the session of an ssl line, and for a conn line its flow with missing fields filled from the last dns and ssl lines that offer them |
| UidJoin.LatestDnsAt | ingest/producers/zeek_kafka_shipper.py:270-296 | the cached DNS fields are those of the last dns line of the uid with no conn line of that uid after it |
| UidJoin.LatestSslAt | ingest/producers/zeek_kafka_shipper.py:270-296 | the cached fingerprint is that of the last ssl line of the uid with neither a conn nor a dns line of that uid after it |
| UidJoin.OtherUidsDoNotMatter | ingest/producers/zeek_kafka_shipper.py:270-296 | lines of other uids never influence what a connection is joined with |
| UidJoin.OwnFieldsAreKept | ingest/producers/zeek_kafka_shipper.py:270-285 | a connection's own non-empty fields are never overwritten, and missing ones are filled exactly from the cache |
| UidJoin.ConnFirstNeverEnriches | ingest/producers/zeek_kafka_shipper.py:385-391 | reading conn.log first never enriches a flow |
| UidJoin.DnsSslConnJoins | backend/app/main.py:152 | reading dns.log, ssl.log, conn.log, the first connection of a uid is emitted with its missing fields filled from that uid's last dns line and last ssl line |
| UidJoin.LaterConnsAreNotJoined | ingest/producers/zeek_kafka_shipper.py:273-274 | every later connection of a uid is emitted as it is |
| UidJoin.SslDnsConnDropsFingerprint | ingest/producers/zeek_kafka_shipper.py:284-300 | reading ssl.log before dns.log, it is emitted with the fingerprint only if its uid has no dns line |
| Trends.GetAlertTrends | backend/app/main.py:757-784 | each emitted bucket counts exactly the alerts stamped in it, per class, and under divisibility the counts sum to the alerts from the start through now |
| Trends.FillBuckets | backend/app/main.py:763-775 | the bucketing loop counts every alert from the start on in its bucket and class, once |
| Trends.TotalIsBetween | backend/app/main.py:764-775 | over any number of buckets, each alert in their span is counted exactly once |
| Trends.BucketCountsItsStretch | backend/app/main.py:769-775 | each bucket counts, per class, exactly the alerts stamped in its stretch of time |
| Trends.StartIsAligned | backend/app/main.py:762 | the first bucket starts at a whole multiple of the width |
| Trends.NothingIsLost | backend/app/main.py:757-784 | if the buckets reach past now, the total is the number of alerts from the start through now |
| Trends.CountsEverythingIffReaches | backend/app/main.py:757-784 | at any instant, the counts account for every alert stamped from the start through now if and only if the buckets reach past now |
| Trends.CountsEverythingIffDivisible | backend/app/main.py:757-784 | from any time on, no alert is ever lost if and only if the bucket width divides the window |
| Trends.AlwaysReachesIffDivisible | backend/app/main.py:761-779 | from any time on, the buckets reach past now at every instant if and only if the bucket width divides the window |
| Trends.IndivisibleMisses | backend/app/main.py:761-779 | otherwise one instant of every bucket period lies beyond the buckets emitted at that instant |

## Left out

- Sockets, Kafka, ClickHouse, Docker, FastAPI routing, WebSockets and the frontend: foreign calls; files are byte sequences, Redis is a map or a scored collection.
- Redis outages, reconnection, key expiry and clashes of the random member suffix: only a reachable Redis is modelled.
- Locks and the engine thread pool: every call is one atomic step, and the aggregator receives the candidates of its engines as a list.
- IEEE rounding of floats: values are reals. The square root is a parameter constrained by its square; Shannon entropy (a logarithm) and the other evidence fields of alerts are omitted.
- The verdicts of the other four engines (volumetric, DNS, malware, exfiltration): they are arbitrary inputs of the pipeline, as are the windows those engines query.
- Address text (`inet_aton`, MAC text, CIDR matching): addresses are bytes, and matching a rule's address is a parameter. MD5 is an uninterpreted function; incident UUIDs are numbers never handed out twice.
- Event dictionaries with missing keys, except a missing flow id and a zero timestamp, which take their own branches.
- JSON and log-line normalization (`normalize_conn_record` and its siblings, `safe_int`, history flags) and `export_zeek_logs`: stored values come back as written, log lines arrive normalized.
- Storage ring, authentication, connection manager and mock producer: they keep no state that the modelled parts read. The larger capture generator repeats the builders modelled here.
- Microsecond rounding of event times by `datetime` before correlation: the aggregator gets the event's own time.
- The contents of a capture file that a failed write leaves behind.
- Threshold baselines that are not finite numbers.
- WindowStore.SlidingWindowStore.GetEvents: the order of equal scores in a sorted set is Redis's own and left open.
- Beaconing.RecentBeatsAreDetected: heartbeats have non-negative byte counts, because a negative total makes the byte ratio raise and the aggregator drop the engine's result.
- Suppression.ReaderIsRecent: a process that never loaded has a clock past its first refresh interval, because it compares against time zero.
- Pipeline.MatchingRule: whether an address matches a rule's address or network is a parameter, because parsing addresses is the standard library's.
- Pipeline.DetectionPipeline.ProcessFlowEvent: four of the six engines are inputs; suppression rules are a list already refreshed for the call.
- UidJoin.ZeekLogShipper.ProcessLogLine: lines arrive parsed and normalized; parsing is the JSON library's, and normalization fills fields of one record without touching the cache the join depends on.
- Suppression.SuppressionStore.GetActiveRules: the order of the ids is the dictionary's, and left open.
