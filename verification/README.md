# k8shark, verified core

k8shark captures traffic on every node of a cluster, pairs requests with
responses in a worker, and shows the entries through a hub and a browser. This
project models the parts of it that are easy to get subtly wrong and proves what
they promise. Every file is one module; `dafny verify dfyconfig.toml` checks all of
them.

| part | modules |
|---|---|
| Kernel packet filter generator | `BpfFilter` |
| Loss-safe TLS path: ring ledger, stream table, pipes, byte budget | `TlsRecords`, `LossLedger`, `TlsPipe`, `TlsTable`, `TlsSystem` |
| Request/response pairing, WebSocket frames, RESP, hexdumps in the worker | `Pairing`, `WsFrames`, `Resp`, `HexDump` |
| Filter language: lexer, matchers, parser, compiler | `FilterLexer`, `FilterMatch`, `FilterParser`, `FilterCompile` |
| Hub ring store, rates, paging, top-N | `HubStore`, `HubRates`, `HubPaging`, `TopN` |
| Capture controller, front client queue | `Capture`, `FrontQueue` |
| Line diff and pcap checksums in the browser | `LineDiff`, `PcapChecksum` |
| Types they share | `Basics` |

## How it is modelled

* Code that changes things step by step is a class or a method with loops, proved
  equal to a function of the old state; what the code promises is proved of that
  function. Where several goroutines or hubs run at once, every critical section or
  atomic action is one step of a state machine, and the results are about every run.
* The kernel filter runs on a small machine with the classic BPF instructions the
  generator uses; a load outside the packet ends the program with 0.
* Clock readings, number parsing, regular expressions, CIDR containment, RFC 3339
  formatting and the JSON encoder are parameters, with the little the code relies on
  stated as predicates (`FilterMatch.Sound`, `Capture.Sound`).

## Where the code does less than it says

* `bpf.go:51` narrows a block length to eight bits. The generated filter is right
  exactly while the two port lists hold at most 58 ports together; past that every
  IPv6 frame lands in the middle of the IPv4 block (`BpfFilter.CorrectIffAtMost58Ports`).
* `tls_pipeline.go:442` can report the end of a stream while an accepted chunk is
  still queued (`TlsSystem.LagBranchMayTruncate`): exactly when one was accepted
  between the poll at line 431 and the test (`TlsSystem.LagEndIsWholeIff`).
* `tls_pipeline.go:154-156` skips records while paused without closing their stream,
  which leaves a hole (`TlsSystem.PauseLeavesHole`) exactly when the record carries
  bytes for a pipe that is still open (`TlsTable.TakeInvIff`, `TlsTable.SkipLeavesHole`).
  Runs here let the pause switch skip everything else.
* `pcap.ts:46` shifts as a signed 32-bit integer, so up to 4 GiB a checksum is wrong
  exactly from a word sum of 2^31 on (`PcapChecksum.ChecksumIffBelow2To31`; for longer
  inputs `PcapChecksum.ChecksumIff`), first possible at 65538 bytes.
* The hexdump parsers know offsets of eight digits only; a dump of more than 4 GiB
  does not parse back (`HexDump.RoundTripIff`).
* `server.go:1008` counts reservations that are about to be withdrawn, so a frame
  that would fit can be refused (`FrontQueue.TransientRefusal`, `FrontQueue.AdmittedIff`).
* `capture.go:122-123` announces durations from one second but admits any positive one;
  since the expiry is stored in whole seconds, a shorter session can be over when it
  is stamped (`Capture.StartsActiveIff`).
* A hub starts over a session that is over by its own clock, so one whose clock runs
  ahead replaces a session the others still see as active (`Capture.StartReplacesIffOver`).
  A session whose expiry cannot be read never ends by itself (`Capture.NeverExpiresIff`).
* An add reads its clock before it gets the lock (`store.go:121-123`), so readings can
  come out of order; one that then records an entry a window older than the bucket
  holds wipes out a current second (`HubRates.OverlapLosesEntry`). The windows are
  exact if and only if that never happens (`HubRates.HistoryExactIff`).
* Captures that share a connection key (`conn.go:24-27`) place responses from several
  goroutines. Their requests still pair in order; their responses do, too, as long as
  no two of them have one to place at once (`Pairing.OneAtATimeKeepsOrder`), and can
  cross as soon as two have (`Pairing.TwoAtOnceMayCross`, `Pairing.LanesMayCross`).
* `pipeline.go:1218-1221` skips a connection whose oldest queued request is fresh, since
  requests are queued in time order; they take their time before the lock (line 224), so
  one queued later may be older and is then kept (`Pairing.SkippedVisitKeepsStale`,
  `Pairing.FreshHeadNeedsNoVisit`).
* Overlapping adds can leave the ring out of sequence order (`store.go:112-117`); paging
  by sequence number then skips or repeats entries (`HubPaging.OverlapHidesEntry`,
  `HubPaging.NextPageRepeatsIff`), exactly unless every page ends on a boundary
  (`HubPaging.PagingVisitsAllOnceIff`).

## Model

| member | source | states |
|---|---|---|
| BpfFilter.PortMatchInstrs | internal/worker/capture/bpf.go:66-78 | the two nested loops emit, for each load, the load and a test-and-accept pair per port |
| BpfFilter.ProgramClosed | internal/worker/capture/bpf.go:41-59 | every jump of every generated program lands inside it, for port lists of any length |
| BpfFilter.ClosedReturns | internal/worker/capture/bpf.go:41-59 | a program whose jumps stay inside always returns a verdict: the program counter only grows and never runs off |
| BpfFilter.PortTestsRun | internal/worker/capture/bpf.go:70-75 | a run of port tests accepts exactly when the loaded port is listed, otherwise falls through |
| BpfFilter.ListedIsMember | internal/worker/capture/bpf.go:72-72 | the value a port test compares with is the port itself: listed means in the list |
| BpfFilter.PortMatchRun | internal/worker/capture/bpf.go:66-78 | source or destination port listed and readable accepts, an unreadable port rejects, otherwise falls through |
| BpfFilter.FragGuardRun | internal/worker/capture/bpf.go:90-101 | later fragments are rejected; otherwise X becomes the IPv4 header length |
| BpfFilter.DispatchRun | internal/worker/capture/bpf.go:116-127 | the protocol byte selects the TCP handler, the UDP handler or the ICMP verdict |
| BpfFilter.Block4Run | internal/worker/capture/bpf.go:86-128 | the IPv4 block returns accept exactly for the IPv4 packets wanted |
| BpfFilter.Block6Run | internal/worker/capture/bpf.go:136-160 | the IPv6 block returns accept exactly for the IPv6 packets wanted |
| BpfFilter.ProgramCorrect | internal/worker/capture/bpf.go:41-59 | for every packet of any length and all lists of at most 58 port numbers, the program accepts exactly ICMP and non-later-fragment TCP or UDP, read off the literal bytes of the frame, whose readable source or destination port is in the list |
| BpfFilter.WantedIsDocumented | internal/worker/capture/bpf.go:41-59 | the packet predicate of the proof is the one read off the literal bytes |
| BpfFilter.DecidesIffAtMost58 | internal/worker/capture/bpf.go:41-59 | the same if and only if for lists of any integers, which are compared as unsigned 32-bit values |
| BpfFilter.WrappedSkip | internal/worker/capture/bpf.go:51-51 | past 58 ports two different IPv6 frames always get the same verdict |
| BpfFilter.CorrectIffAtMost58Ports | internal/worker/capture/bpf.go:41-59 | for all lists of port numbers the program decides every packet that way if and only if the lists hold at most 58 ports together |
| LossLedger.ReadRingInv | internal/worker/ebpf/loader.go:252-304 | one event read from the ring keeps: data before the first loss, then at most one tombstone, then nothing, and a bounded ledger |
| LossLedger.DeclareLossInv | internal/worker/ebpf/loader.go:225-237 | declaring a loss, with the channel drained in between by any amount, keeps the same |
| LossLedger.EventFate | internal/worker/ebpf/loader.go:271-303 | what one event does, exactly: data of a whole connection is sent if and only if there is room, anything else sends at most its one tombstone, and the loop stops if and only if a 4097th connection would enter the ledger |
| LossLedger.LossFate | internal/worker/ebpf/loader.go:225-237 | a record that could not be sent enters the ledger, its tombstone sent if and only if there is room by then |
| LossLedger.NextInv | internal/worker/ebpf/loader.go:252-304 | every step of the drain loop and of the channel keeps the ledger invariant |
| LossLedger.SentIsTruePrefix | internal/worker/ebpf/loader.go:246-251 | what was put on the channel for one direction is a prefix of its true stream before the first loss |
| LossLedger.NothingAfterTombstone | internal/worker/ebpf/loader.go:246-251 | nothing of a connection follows its tombstone |
| LossLedger.DrainLoop.Forward | internal/worker/ebpf/loader.go:225-237 | the mutating code computes the ledger step, including the full-channel case that leaves the tombstone pending |
| LossLedger.DrainLoop.Handle | internal/worker/ebpf/loader.go:271-303 | one iteration of the loop computes the ring step, and the loss declaration after a failed send |
| TlsPipe.ReadDelivers | internal/worker/tls_pipeline.go:411-468 | a read hands over exactly the front of what is pending, releases exactly what the pipe stops owing, ends if and only if the pipe is closed and empty and waits if and only if it is open and empty |
| TlsPipe.PushAccounts | internal/worker/tls_pipeline.go:382-409 | a chunk is accepted whole at the end if and only if the pipe is open, the budget has room and one of 64 slots is free; otherwise the pipe is cut off; the budget moves by what the pipe owes and stays within the limit |
| TlsPipe.TlsByteBudget.Reserve | internal/worker/tls_pipeline.go:38-50 | admits exactly what fits, counts a drop otherwise |
| TlsPipe.TlsByteBudget.Release | internal/worker/tls_pipeline.go:51-51 | gives bytes back |
| TlsPipe.ChanPipe.PushChunk | internal/worker/tls_pipeline.go:382-409 | pipe, budget and drop count after a push are those of the specification, with a budget or without |
| TlsPipe.ChanPipe.ReadChunk | internal/worker/tls_pipeline.go:411-468 | the looping read returns, leaves and releases what the specification says |
| TlsPipe.ChanPipe.Close | internal/worker/tls_pipeline.go:472-481 | closes and changes nothing else |
| TlsPipe.ChanPipe.Discard | internal/worker/tls_pipeline.go:484-508 | empties the pipe and gives back everything it owed |
| TlsTable.PushHalvesMeet | internal/worker/tls_pipeline.go:382-409 | the two halves of an interleaved push, undisturbed, are the push of a pipe by itself |
| TlsTable.ReadTurns | internal/worker/tls_pipeline.go:411-468 | the interleaved reader steps, undisturbed, are the turns of a read by itself: copy out, take the next chunk, or end |
| TlsTable.TakeInv | internal/worker/tls_pipeline.go:136-170 | receiving a record (tombstone, new stream, full table, feed, harmless skip) keeps the invariant |
| TlsTable.TakeInvIff | internal/worker/tls_pipeline.go:136-170 | receiving a record keeps the invariant if and only if pause does not make an open pipe miss bytes |
| TlsTable.NewConnectionOpens | internal/worker/tls_pipeline.go:157-167 | a record of a connection without a stream opens one if and only if the table has room: two empty pipes that begin where each direction now stands, the data on its way to the pipe of its direction; otherwise nothing but the receipt is recorded |
| TlsTable.KnownConnectionFed | internal/worker/tls_pipeline.go:142-167 | a record of an open stream goes to the pipe of its direction, a paused worker drops data whole, a tombstone ends the stream and leaves both pipes to be closed |
| TlsTable.RecordArrives | internal/worker/tls_pipeline.go:331-341 | left alone, the consumer puts the data of a received record at the end of the pipe of its direction if and only if that pipe is open and budget and slots allow, otherwise cuts it off, and touches no other pipe |
| TlsTable.SkipLeavesHole | internal/worker/tls_pipeline.go:154-156 | in every state in which a skip starves a pipe, the next accepted chunk keeps the slice if and only if it continues as the lost bytes began |
| TlsTable.InternalInv | internal/worker/tls_pipeline.go:115-170 | every interleaved step of pushes, closes, sweeps, reads and discards keeps the invariant |
| TlsTable.InternalKeepsGone | internal/worker/tls_pipeline.go:484-508 | a discarded pipe is never used again |
| TlsSystem.RunInv | internal/worker/tls_pipeline.go:115-170 | the combined invariant holds in every state of every run |
| TlsSystem.DissectorReadsSlice | internal/worker/tls_pipeline.go:115-170 | in every run in which pause starves no open pipe, what any dissector has read is a contiguous slice of its direction's true stream: no byte after a loss, no hole |
| TlsSystem.ReceiveInvIff | internal/worker/tls_pipeline.go:136-170 | a received record keeps the whole system's invariant if and only if pause starves no open pipe |
| TlsSystem.PausedSkipLeavesHole | internal/worker/tls_pipeline.go:154-156 | wherever a run has on its channel a record whose skip starves a pipe and then one of the same direction with another first byte, skipping the one and accepting the other leaves bytes that are no slice |
| TlsSystem.BudgetExact | internal/worker/tls_pipeline.go:38-51 | in every run the budget in use is the queued chunks, held buffers, chunks in hand and the writer's reservation; never above the limit; zero for a discarded pipe |
| TlsSystem.GoneForEver | internal/worker/tls_pipeline.go:484-508 | in every run, once discarded a pipe stays discarded and owes nothing for ever |
| TlsSystem.ChannelShape | internal/worker/ebpf/loader.go:218-304 | in every run the ledger holds at most 4096 connections and each connection's records are its data before the first loss, then at most one tombstone |
| TlsSystem.ClosedBranchDeliversAll | internal/worker/tls_pipeline.go:455-465 | the end through the closed branch comes only after everything accepted was delivered |
| TlsSystem.LagEndIsWholeIff | internal/worker/tls_pipeline.go:431-446 | in every run, a reader that polled an empty channel and is then told the end by the lag test has read everything accepted if and only if nothing was accepted between the poll and the test |
| TlsSystem.TombstoneCloses | internal/worker/tls_pipeline.go:143-152 | once a tombstone is dealt with, its connection has no stream and all its pipes are closed |
| TlsSystem.LagBranchMayTruncate | internal/worker/tls_pipeline.go:431-446 | a run of the whole system in which the lag test ends a stream with an accepted chunk still queued |
| TlsSystem.PauseLeavesHole | internal/worker/tls_pipeline.go:154-156 | an instance: a reachable run in which pause makes a pipe accept bytes that are no slice of the stream |
| Pairing.StepInv | internal/worker/pipeline.go:203-267 | reserve, fill, complete, give up, purge, prune, backlog drop and map eviction each keep the pairing invariant |
| Pairing.MatchingIsMonotone | internal/worker/pipeline.go:361-396 | in every run, with any number of response goroutines on a key, each pair joins a request and a response of one connection, the pairs of a connection increase strictly in request order and those of one goroutine in response order, each is in exactly one place (emitted once, in hand, or parked), and nothing is emitted before its request is filled |
| Pairing.OneAtATimeKeepsOrder | internal/worker/pipeline.go:361-396 | in every run, drops, purges, evictions and give-ups included, as long as no two goroutines of a connection have a response to place at once its pairs increase strictly in both request and response order |
| Pairing.TwoAtOnceMayCross | internal/worker/pipeline.go:361-396 | the converse: every run that ends with two goroutines of a connection waiting extends to one whose pairs are out of response order |
| Pairing.LanesMayCross | internal/worker/conn.go:24-35 | an instance: a run of two goroutines on one key in which the second response is paired with the first request |
| Pairing.FillerEmitsParked | internal/worker/pipeline.go:233-244 | filling a request takes exactly its parked response, which was emitted nowhere before |
| Pairing.PurgeForgets | internal/worker/pipeline.go:572-576 | no request queued before a purge is paired after it |
| Pairing.LosslessFifo | internal/worker/pipeline.go:203-267 | in a run in which nothing is dropped or given up, the i-th pair of a connection is its i-th request with its i-th response |
| Pairing.FollowingRunIsLossless | internal/worker/pipeline.go:361-396 | a run without purge, eviction, prune or overflow in which each response arrives after its request was queued gives nothing up |
| Pairing.FollowingFifo | internal/worker/pipeline.go:203-267 | in such a run, with one response goroutine per connection, the i-th response pairs with the i-th request, and only the response being placed is unpaired |
| Pairing.FollowingResponseFindsRequest | internal/worker/pipeline.go:361-396 | without losses a response that follows its request finds it queued |
| Pairing.Pipeline.AppendPending | internal/worker/pipeline.go:248-267 | the request is queued last, the oldest dropped over 1024, and over the map cap one connection, any of them, is forgotten; every other queue is as before |
| Pairing.Pipeline.FillRequest | internal/worker/pipeline.go:233-244 | marks exactly this request filled and hands back its parked response |
| Pairing.Pipeline.CompleteResponse | internal/worker/pipeline.go:361-383 | takes the oldest request, and parks on it or hands it over for emission |
| Pairing.Pipeline.PurgePending | internal/worker/pipeline.go:572-576 | forgets the connection and no other |
| Pairing.Pipeline.PruneKey | internal/worker/pipeline.go:1236-1253 | a request stays queued if and only if it was and is no older than the cutoff, in the old order; the connection goes if and only if none is left |
| Pairing.PruneKeepsFresh | internal/worker/pipeline.go:1236-1253 | the same of the step model, with every other connection untouched |
| Pairing.FreshHeadNeedsNoVisit | internal/worker/pipeline.go:1218-1228 | pruning changes nothing if and only if something is queued and all of it is fresh; for a queue ordered by time that is if and only if its head is |
| Pairing.SkippedVisitKeepsStale | internal/worker/pipeline.go:1218-1228 | a queue out of time order whose head is fresh keeps an expired request |
| WsFrames.Unmask | internal/worker/pipeline.go:886-890 | in-place unmasking is the mask of section 5.3 of RFC 6455 |
| WsFrames.ReadFrame | internal/worker/pipeline.go:840-903 | one turn of the loop parses one frame, with every truncated or oversize case |
| WsFrames.ConsumeWSFrames | internal/worker/pipeline.go:838-904 | the loop emits exactly the entries of the specification |
| WsFrames.BigEndianRoundTrip | internal/worker/pipeline.go:855-862 | the extended lengths decode to what was encoded |
| WsFrames.MaskedTwice | internal/worker/pipeline.go:886-890 | masking twice with one key is the identity |
| WsFrames.LengthDecodes | internal/worker/pipeline.go:847-863 | each of the three length forms gives the true length |
| WsFrames.ParseEncoded | internal/worker/pipeline.go:840-903 | an encoded frame before anything is parsed exactly: opcode, true length, clear preview of at most 256 bytes, and its own size consumed |
| WsFrames.FrameByBytes | internal/worker/pipeline.go:840-903 | the same off the wire, for every input: length by seven bits, two or eight bytes, key and payload where they stand, each preview byte unmasked bit by bit with its key byte; an entry if and only if header, key and preview are there and the length is at most 8 MiB |
| WsFrames.XorBits | internal/worker/pipeline.go:886-890 | unmasking sets a bit if and only if data and key differ in it |
| WsFrames.SplitEncoded | internal/worker/pipeline.go:838-904 | any list of frames of at most 8 MiB splits into one entry per frame in order up to the first close, aligned on whatever follows |
| Resp.ParseValue | internal/worker/dissect_redis.go:139-205 | the recursive parser computes the specification, errors and attributes included |
| Resp.ParseAggregate | internal/worker/dissect_redis.go:208-233 | count line, null and limits of an aggregate |
| Resp.ParseElements | internal/worker/dissect_redis.go:224-231 | the element loop reads the elements in order or fails |
| Resp.RoundTrip | internal/worker/dissect_redis.go:135-205 | every value within the limits, encoded in front of any tail, parses to itself and leaves exactly the tail |
| Resp.SeqRoundTrip | internal/worker/dissect_redis.go:224-231 | the same for the elements of an aggregate |
| Resp.PipelineSplits | internal/worker/dissect_redis.go:135-137 | pipelined messages split at their own boundaries, whatever follows |
| Resp.CommandParses | internal/worker/demo.go:344-351 | a rendered command within the limits parses to its arguments and leaves exactly what follows |
| Resp.DemoRESP | internal/worker/demo.go:344-351 | the rendering loop writes that encoding, so for arguments within the limits its output, before any tail, parses back |
| Resp.TypeBytes | internal/worker/dissect_redis.go:147-200 | the first bytes of lines, bulk strings, aggregates, nulls and attributes |
| Resp.EncodedAs | internal/worker/dissect_redis.go:147-200 | what each kind of message is on the wire |
| Resp.LineReads | internal/worker/dissect_redis.go:235-241 | a line ends at the first line feed, without the carriage returns before it; without one there is none |
| Resp.DigitsConcat | internal/worker/dissect_redis.go:157-160 | numerals are decimal, first digit first |
| Resp.AtoiReads | internal/worker/dissect_redis.go:157-160 | a sign and digits read as the number they write, within 64 bits |
| Resp.AtoiRefuses | internal/worker/dissect_redis.go:157-160 | anything else is no number |
| Resp.BulkLimits | internal/worker/dissect_redis.go:152-183 | a bulk string is taken if and only if it is at most 512 MiB, at most 64 deep and complete; 1 MiB of it is kept |
| Resp.AggLimits | internal/worker/dissect_redis.go:208-233 | an aggregate is taken if and only if it has at most 1048576 elements, a map two for each, is at most 64 deep and its elements parse |
| HexDump.RoundTripIff | internal/hub/pcap.go:325-343 | a dump parses back to the dumped bytes, whatever they are, if and only if every offset fits in eight digits |
| HexDump.CutAtGutter | internal/hub/pcap.go:331-334 | whatever the gutter contains, the line is cut where the gutter starts |
| HexDump.LineRoundTrip | internal/hub/pcap.go:328-341 | one rendered line parses to its bytes |
| HexDump.LineLayout | internal/worker/hexdump.go:55-91 | where everything stands in a line: eight offset digits, two groups of eight columns, the printable text between bars |
| HexDump.WideLine | internal/hub/pcap.go:316-318 | a longer offset is read as bytes, so the line yields too many |
| HexDump.OffsetWidth | internal/worker/hexdump.go:55-63 | the search from the top nibble finds the width of the offset, at least eight |
| HexDump.WriteOffset | internal/worker/hexdump.go:64-66 | shifting out nibbles writes the offset in hex |
| HexDump.WriteColumns | internal/worker/hexdump.go:69-81 | two groups of eight columns, blanks past the end of the line |
| HexDump.WriteAscii | internal/worker/hexdump.go:84-90 | the gutter shows printable bytes and dots |
| HexDump.HexDump | internal/worker/hexdump.go:34-94 | the worker renders the capped bytes to the dump of the specification |
| HexDump.PaddedOffset | ui/src/rawView.ts:68-68 | the padded hex of the browser is the offset the worker writes |
| HexDump.RenderHexDump | ui/src/rawView.ts:63-82 | the browser renders exactly the text the worker renders |
| HexDump.ParseHexDump | ui/src/rawView.ts:33-44 | the parsing loop computes the specification and returns the dumped bytes of any dump up to 4 GiB |
| FilterLexer.ReadQuoted | internal/hub/filter.go:112-127 | reads a literal with escapes, or reports that it is unterminated |
| FilterLexer.LexAll | internal/hub/filter.go:95-165 | the index loop computes the lexer specification, errors included |
| FilterLexer.ClassifyMeans | internal/hub/filter.go:141-158 | connectives and word operators in any case, numbers if and only if the parser takes them, names otherwise |
| FilterLexer.QuotedLexes | internal/hub/filter.go:112-127 | a plain literal in either kind of quotes stands for itself, and is rejected without its closing quote |
| FilterLexer.FoldText | internal/hub/filter.go:141-141 | folding compares texts letter by letter, whatever the case |
| FilterLexer.ScanEscaped | ui/src/components/FilterSuggest.tsx:111-111 | a literal escaped by the browser scans back to its text |
| FilterLexer.InsertionLexes | ui/src/components/FilterSuggest.tsx:108-114 | a value inserted by the browser lexes to one string token with that text, for every text |
| FilterLexer.PlainInsertionLexes | ui/src/components/FilterSuggest.tsx:108-114 | a number, field or operator inserted by the browser lexes to that one word |
| FilterLexer.LexWoven | internal/hub/filter.go:95-165 | any tokens, spelled with any blanks between that keep words apart, lex back to themselves |
| FilterLexer.TrimOf | internal/hub/filter.go:51-51 | trimming removes exactly the blanks around a text |
| FilterMatch.DecimalReadsNumerals | internal/hub/filter.go:385-387 | a decimal reader meets what the code relies on of the number parser |
| FilterMatch.HubFieldsAgree | internal/hub/filter.go:547-692 | every typed integer field is a field, under the same names, and both accessors read the same number |
| FilterMatch.EntryFieldsRead | internal/hub/filter.go:548-564 | which number of the entry each typed field reads |
| FilterMatch.DetailFieldsRead | internal/hub/filter.go:565-692 | the same for the protocol details; an absent part reads none |
| FilterMatch.L4FieldsRead | internal/hub/filter.go:586-692 | the same for the L4 part |
| FilterMatch.TypedPathAgrees | internal/hub/filter.go:367-373 | the typed numeric path fails and answers exactly like the parse-the-string path |
| FilterMatch.FoldedHit | internal/hub/filter.go:492-504 | a raw hit of the folded needle is a hit in the folded value, so the shortcut is never a false positive |
| FilterMatch.PrefixFold | internal/hub/filter.go:323-325 | folding only the window is a prefix test letter by letter, whatever the case |
| FilterMatch.ValueMatcherMeans | internal/hub/filter.go:472-542 | a value matcher exists exactly for meaningful literals and is the direct test: texts whatever the case, addresses by range, real numbers by their own order |
| FilterMatch.FieldPredicateMeans | internal/hub/filter.go:444-456 | a field predicate holds when some value of the field matches; unknown fields are rejected |
| FilterMatch.EitherSideMeans | internal/hub/filter.go:336-357 | namespace matches when either side does, and != only when neither does |
| FilterMatch.ComparisonMeans | internal/hub/filter.go:270-379 | a comparison compiles exactly when field and literal are acceptable, and then is the direct reading, which shares no test with the matchers |
| FilterMatch.OrderingSelects | internal/hub/filter.go:385-408 | each of the four ordering tests on a numeric field selects an entry if and only if its number is greater, less, at least, at most the literal |
| FilterMatch.FulltextMeans | internal/hub/filter.go:251-268 | a bare literal selects an entry if and only if its text mentions it, whatever the case |
| FilterMatch.InMeans | internal/hub/filter.go:280-294 | an "in" test is true when some value folds to some literal |
| FilterParser.Parser.DoOr | internal/hub/filter.go:182-197 | the loop over "or" yields the predicate, position and depth the grammar gives |
| FilterParser.Parser.DoAnd | internal/hub/filter.go:199-214 | the same for "and", binding tighter |
| FilterParser.Parser.DoUnary | internal/hub/filter.go:216-231 | "not" with its depth guard; the depth is restored on success |
| FilterParser.Parser.DoPrimary | internal/hub/filter.go:233-250 | parentheses with their depth guard; the depth is restored on success |
| FilterParser.Parser.DoLeaf | internal/hub/filter.go:251-268 | bare literals and words are full-text tests, a word before an operator starts a comparison |
| FilterParser.Parser.DoComparison | internal/hub/filter.go:270-379 | field, operator and value consumed, and the predicate of the comparison |
| FilterParser.Parser.DoValues | internal/hub/filter.go:411-438 | the value loop accepts 1 to 64 comma-separated values |
| FilterCompile.CompileFilter | internal/hub/filter.go:50-71 | compiles exactly what the grammar accepts within the limits, and the predicate selects what the expression means |
| FilterCompile.ListParses | internal/hub/filter.go:411-438 | a printed list parses back exactly when it has 1 to 64 values |
| FilterCompile.LeafParses | internal/hub/filter.go:251-294 | a printed leaf parses back exactly when it compiles |
| FilterCompile.UnaryParses | internal/hub/filter.go:216-231 | a printed unary operand parses to itself and leaves the rest, exactly within the depth limit |
| FilterCompile.AndParses | internal/hub/filter.go:199-214 | the same where a conjunction is expected |
| FilterCompile.OrParses | internal/hub/filter.go:182-197 | the same where a disjunction is expected |
| FilterCompile.PrintedParses | internal/hub/filter.go:62-70 | printed tokens parse back to the expression, all consumed, if and only if it keeps the limits |
| FilterCompile.PrintedCompiles | internal/hub/filter.go:50-71 | every expression, printed with minimal parentheses and any blanks, compiles to itself if and only if length, depth, lists and leaves keep the limits |
| FilterCompile.OrText | internal/hub/filter.go:182-197 | the text of two operands with "or" between is rejected if and only if it breaks a limit, and selects what either operand means |
| FilterCompile.AndText | internal/hub/filter.go:199-214 | the same for "and": what both mean |
| FilterCompile.NotText | internal/hub/filter.go:216-231 | the same for "not": what the operand does not mean |
| FilterCompile.ComparisonText | internal/hub/filter.go:270-379 | field, operator as it is written, and plain word compile if and only if field and word are acceptable, and select by that relation |
| HubStore.LongestFitIsLongest | internal/hub/store.go:157-167 | the kept part is a suffix, and a suffix has at most capacity entries and at most budget bytes of cached JSON exactly when it is no longer |
| HubStore.BytesIsLength | internal/hub/store.go:140-156 | the byte sum is the length of the cached JSON, one text after the other |
| HubStore.AcceptedSnoc | internal/hub/store.go:124-133 | every record is accepted in its turn but one whose JSON alone is over budget |
| HubStore.TrimIncrementally | internal/hub/store.go:157-167 | trimming at every add gives the same as trimming the whole history |
| HubStore.IndexDrop | internal/hub/store.go:159-162 | evicting the oldest entry keeps the id index exact |
| HubStore.AddHolds | internal/hub/store.go:105-181 | one add leaves exactly the longest fitting suffix; an entry over the whole budget changes nothing |
| HubStore.RingIsLongestSuffix | internal/hub/store.go:105-181 | after any adds the ring is the longest suffix of the accepted history fitting both bounds, with exact byte sum, paired JSON and an index of the newest live entry per id |
| HubStore.SnapshotIsNewest | internal/hub/store.go:230-269 | the snapshot loop yields the newest records, newest first, each with its own JSON |
| HubStore.Store.Write | internal/hub/store.go:140-156 | overwrites the oldest slot when full and keeps ring, bytes and index |
| HubStore.Store.Evict | internal/hub/store.go:158-166 | drops the oldest live entry and keeps ring, bytes and index |
| HubStore.Store.Add | internal/hub/store.go:105-181 | the mutating add computes the specification |
| HubStore.Store.SnapshotEntries | internal/hub/store.go:230-245 | of whatever the ring holds, the newest entries, newest first, as many as asked for or there are |
| HubStore.Store.SnapshotRaw | internal/hub/store.go:250-269 | the same with cached JSON, entries without one left out of both |
| HubStore.Store.Lookup | internal/hub/store.go:409-413 | the newest live entry with the id, or none if none is live |
| HubRates.WindowIff | internal/hub/store.go:482-507 | whatever the order of the clock readings, a window is never reported too large, and exactly if and only if every second in it is still held in full |
| HubRates.CountIsRecent | internal/hub/store.go:189-211 | the reference count is the number of entries dated inside the window, future dates counting as their arrival, by status |
| HubRates.InOrderNeverClobbers | internal/hub/store.go:189-211 | an entry whose reading is the latest, however late or future-dated, recycles no bucket that a window still counts |
| HubRates.ObserveExactIff | internal/hub/store.go:189-211 | for readings in any order: if all windows were exact before an observation, they are exact after it if and only if it does not recycle a bucket of a later second that the window still counts |
| HubRates.HistoryExactIff | internal/hub/store.go:105-129 | for every history, with readings in any order, the windows are exact all along if and only if no observation does that |
| HubRates.ObserveExact | internal/hub/store.go:189-211 | with readings in order the windows are exact over everything ever ingested, late and future-dated entries included |
| HubRates.OverlapLosesEntry | internal/hub/store.go:121-123 | two overlapping adds, the first of which read its clock before the second and records after it, make a current entry disappear from every window |
| HubRates.ReaderBehindIff | internal/hub/store.go:426-429 | a reader whose clock lies behind the latest reading gets an exact window if and only if none of the seconds the latest window has left behind was lost |
| HubRates.RateWindow.ObserveRate | internal/hub/store.go:189-211 | computes the specification for readings in any order, and keeps exact buckets exact if and only if it does not clobber |
| HubRates.RateWindow.Windows | internal/hub/store.go:482-507 | while the buckets are exact, counts and rates over 5, 60 and 300 seconds are the numbers of entries so dated in everything ingested, for a reader at the latest reading or later, and for shorter windows also for one that is behind by no more than they are shorter |
| HubPaging.Page | internal/hub/store.go:304-326 | the walk returns the first answers in order, as many as there are or the limit: past the anchor, below the cursor, matching |
| HubPaging.PageIsPageBefore | internal/hub/store.go:397-406 | a page before a sequence number is the front of the matching entries below it |
| HubPaging.MatchingCounts | internal/hub/store.go:304-326 | before the limit, a page by sequence number is exactly the entries below the cursor that match, each as often as it is there |
| HubPaging.CursorLeavesRest | internal/hub/store.go:397-406 | a cursor on the last entry of a page leaves exactly the rest if and only if that entry is older than no match before it and newer than every match after it |
| HubPaging.PagingVisitsAllOnceIff | internal/hub/store.go:397-406 | paging an unchanging ring ends, and shows every matching entry exactly once if and only if every page ends on such an entry |
| HubPaging.SeparatedByOneIffDescending | internal/hub/store.go:397-406 | for pages of one entry that is exactly descending sequence order |
| HubPaging.PagingVisitsAllOnce | internal/hub/store.go:397-406 | with ring order in sequence order, paging with any limit shows every matching entry exactly once, newest first |
| HubPaging.OverlapHidesEntry | internal/hub/store.go:112-117 | two entries whose adds overlapped: pages of one show the older and never the newer |
| HubPaging.PagingShowsKeptHistory | internal/hub/store.go:397-406 | after any adds that do not overlap, paging the store shows exactly the matching entries of the longest fitting suffix of the accepted history, newest first |
| HubPaging.LaterPagesAreOlder | internal/hub/store.go:397-406 | however the ring changes between pages, everything on a later page is strictly older than everything on a page that ends on its oldest entry |
| HubPaging.CursorsDescend | internal/hub/store.go:397-406 | however the ring changes and whatever its order, nothing on a later page is at or above an earlier cursor |
| HubPaging.PagesEndOnOldest | internal/hub/store.go:397-406 | pages of a ring in sequence order, and pages of one entry, end on their oldest entry |
| HubPaging.NextPageRepeatsIff | internal/hub/store.go:397-406 | if the ring stands still, the next page repeats an entry if and only if the page did not end on its oldest |
| TopN.RootIsWorst | internal/hub/sort.go:60-69 | the root of the heap is its worst item |
| TopN.SortHeap.Push | internal/hub/sort.go:79-79 | pushing keeps heap order and adds exactly the item |
| TopN.SortHeap.ReplaceRoot | internal/hub/sort.go:42-43 | replacing the root restores heap order and swaps exactly that item |
| TopN.SortHeap.Pop | internal/hub/sort.go:80-86 | popping removes exactly the root and keeps heap order |
| TopN.Collect | internal/hub/sort.go:30-45 | the scan keeps a best-limit subset of the parsable entries in heap order |
| TopN.ParsableCounts | internal/hub/sort.go:31-36 | the candidates are exactly the entries with a number, each with its own |
| TopN.TopNBySort | internal/hub/sort.go:29-51 | min(limit, parsable) items, a sub-multiset of the input, largest or smallest first as asked, nothing omitted larger or smaller than anything returned |
| Capture.SoundConfig | internal/hub/capture.go:249-253 | a formatter and parser that keep what the controller relies on exist |
| Capture.DescribeTells | internal/hub/capture.go:206-225 | the phase told is stopped, stopping, running or starting, each if and only if the session is over or not and the workers are gone or ready, read off the annotations and the status |
| Capture.OverIffStopped | internal/hub/capture.go:209-213 | the session is over if and only if it is not on record as running or its expiry reads as an instant no later than now |
| Capture.NextInv | internal/hub/capture.go:115-225 | every step of every hub, the controller and foreign writers keeps the session invariant |
| Capture.SessionBounded | internal/hub/capture.go:136-139 | in every run a session that is on expires at most maxDuration after its start |
| Capture.ExpiryNeverMoves | internal/hub/capture.go:131-135 | while a session stays active by the clock of every hub, nobody moves its expiry |
| Capture.StartReplacesIffOver | internal/hub/capture.go:131-139 | a start replaces the session if it is over by that hub's own clock, and otherwise leaves everything as it was |
| Capture.StartsActiveIff | internal/hub/capture.go:119-139 | a started session is always active when stamped if and only if it asks for at least a second |
| Capture.ReconcileStops | internal/hub/capture.go:172-204 | a reconcile at or after expiry that goes through, or needs no patch, finds the stopped configuration |
| Capture.SecondReconcilePatchesNothing | internal/hub/capture.go:191-203 | after a reconcile, and any foreign or status writes, the next one, by any hub whose clock is on the same side of expiry, patches nothing |
| Capture.OthersKept | internal/hub/capture.go:249-278 | in every interleaving foreign annotations, selectors and gates end up as the foreign writers left them |
| Capture.BuildPatch | internal/hub/capture.go:249-278 | the loop drops the legacy gate and keeps the others in order; a gate list is sent only if it was there |
| Capture.OtherGatesSnoc | internal/hub/capture.go:260-267 | the gates kept are all but the legacy one, each in its place |
| Capture.MergedVersion | internal/hub/capture.go:273-295 | a merge bumps the version exactly when anything changed and the generation exactly when the pod template did |
| Capture.ApiServer.Serve | internal/hub/capture.go:273-295 | a patch from another version is refused, otherwise merged by section 2 of RFC 7396 |
| Capture.CaptureManager.StartSession | internal/hub/capture.go:115-145 | rejects exactly a duration that, zero standing for the default, is not positive or over the maximum; leaves a session that is not over alone, otherwise records the new one with its expiry, foreign settings untouched; tells the phase by the workers |
| Capture.CaptureManager.StopSession | internal/hub/capture.go:147-169 | leaves the DaemonSet alone if and only if the session is over, it is switched off, the switch was observed and all four worker counts are zero, and answers stopped; otherwise reaches the stopped configuration and tells the phase |
| Capture.CaptureManager.ReconcileSession | internal/hub/capture.go:172-204 | reaches the stopped configuration if the session is over and the running one if not, leaves nothing to reconcile on this side of expiry, foreign settings untouched |
| FrontQueue.NextInv | internal/hub/server.go:1001-1020 | every atomic action of senders and writer keeps the accounting |
| FrontQueue.QueueSafe | internal/hub/server.go:1001-1020 | in every run the counter equals the outstanding reservations, frames are written in order and none is lost, and admitted unwritten bytes are within 16 MiB unless one frame holds them all |
| FrontQueue.AdmittedIff | internal/hub/server.go:1008-1011 | a frame passes the test if and only if nothing is reserved or it fits with everything reserved |
| FrontQueue.TransientRefusal | internal/hub/server.go:1008-1011 | a run in which a withdrawn reservation makes a fitting frame be refused |
| FrontQueue.FrontClient.TrySend | internal/hub/server.go:1001-1020 | accepts exactly within budget and slots, and otherwise leaves everything as it was |
| FrontQueue.FrontClient.WriteOne | internal/hub/server.go:963-975 | writes the oldest frame and releases its bytes |
| LineDiff.FillTable | ui/src/components/CompareView.tsx:20-25 | the nested loops fill the table of the recurrence |
| LineDiff.LcsIsBound | ui/src/components/CompareView.tsx:20-25 | no common subsequence of two suffixes is longer than the table entry |
| LineDiff.SameIsCommon | ui/src/components/CompareView.tsx:30-33 | the shared lines of any list of operations are common to both sides |
| LineDiff.OpsSnoc | ui/src/components/CompareView.tsx:30-43 | a deleted line is one of the old text only, an added line one of the new text only |
| LineDiff.LcsSteps | ui/src/components/CompareView.tsx:20-25 | one line more changes a table entry by at most one, and never downwards |
| LineDiff.DiffLines | ui/src/components/CompareView.tsx:17-45 | the diff rebuilds both inputs, its shared lines are a longest common subsequence, and between shared lines deletions stand before additions |
| PcapChecksum.Checksum16 | ui/src/pcap.ts:39-48 | the two loops compute the checksum of the specification |
| PcapChecksum.FoldIsOnes | ui/src/pcap.ts:46-46 | below 2^31 the folding loop computes the ones-complement sum of section 1 of RFC 1071 |
| PcapChecksum.RfcByCarry | ui/src/pcap.ts:39-48 | the yardstick is the sum of the big-endian words with every carry brought round, complemented |
| PcapChecksum.FoldIsOnesIff | ui/src/pcap.ts:46-46 | for every sum the loop ends on the ones-complement sum if and only if its passes out of the signed 32-bit range cancel modulo 65535 and it does not fold to zero |
| PcapChecksum.ChecksumIff | ui/src/pcap.ts:39-48 | for every input the checksum is the one of RFC 1071 if and only if that holds of its word sum |
| PcapChecksum.ChecksumIffBelow2To31 | ui/src/pcap.ts:39-48 | for inputs up to 4 GiB that is if and only if the word sum is below 2^31 |
| PcapChecksum.ChecksumIsRfc1071 | ui/src/pcap.ts:39-48 | so it always is up to 65536 bytes |
| PcapChecksum.FirstWrongLength | ui/src/pcap.ts:46-46 | 65538 bytes of all ones are wrong |
| PcapChecksum.PatchedVerifies | ui/src/pcap.ts:120-123 | a packet of any length with its checksum filled in verifies by RFC 1071 if and only if the passes of its word sum cancel; up to 65536 bytes they do, and it also re-checksums to zero |
| PcapChecksum.SegmentVerifies | ui/src/pcap.ts:129-132 | the same for a segment of any length with its pseudo-header |
| PcapChecksum.Ipv4HeaderBlank | ui/src/pcap.ts:109-119 | every header field at its offset: length, id, do not fragment, ttl, protocol, source before destination |
| PcapChecksum.Pseudo | ui/src/pcap.ts:130-130 | the pseudo-header fields at their offsets |
| PcapChecksum.TcpBlank | ui/src/pcap.ts:145-155 | source port, destination port, sequence and acknowledgement numbers, flags, window and payload at their offsets |
| PcapChecksum.UdpBlank | ui/src/pcap.ts:163-165 | ports, length and payload at their offsets |
| PcapChecksum.IcmpBlank | ui/src/pcap.ts:177-182 | type 8 for an echo request and 0 for a reply, then zeros and the payload |
| PcapChecksum.Ipv4Header | ui/src/pcap.ts:101-124 | the header re-checksums to 0 and differs from the fields only in its checksum |
| PcapChecksum.TcpSegment | ui/src/pcap.ts:134-160 | the segment verifies with its pseudo-header exactly under that condition, and re-checksums to 0 up to 65536 checksummed bytes |
| PcapChecksum.UdpSegment | ui/src/pcap.ts:162-174 | the same, also when the computed checksum is the reserved zero |
| PcapChecksum.IcmpSegment | ui/src/pcap.ts:176-187 | the same without a pseudo-header |

## Left out

- HTTP and WebSocket transport, TLS dialing, reconnects, the CLI, Helm and kubectl calls, eBPF loading and uprobe attachment: input and output only.
- net/http parsing, decompression, gopacket decoding and TCP reassembly: libraries that are not part of this model.
- The Postgres, MySQL, Mongo, Kafka and AMQP dissectors, L4 accounting, facets, summary, graph, exporter and sink: easier repeats of framing, counting and bounding.
- FilterMatch.HubFieldsAgree: the one typed field that is a float, l4.rttms, and most of the text-only fields are left out; the integer fields are all there.
- The text of error messages: a rejected filter, start or message is one error value.
- FilterLexer.LexAll: text is ASCII, so Unicode white space, case folding that changes length and the byte count of multi-byte text are not captured.
- FilterParser.Parser.DoComparison: a value that is itself punctuation, which the source accepts after an operator, is modelled in the grammar but is not printed.
- FilterCompile.PrintedCompiles: the printed text has no white space at its edges, where trimming would take it off a word.
- TlsTable.TakeInv: assumes that pause starves no open pipe, because the property is false otherwise (TlsTable.TakeInvIff).
- TlsTable.Take: the counters of lagged and refused streams are left out.
- Pairing.LosslessFifo: one response goroutine per connection, since with several the responses may cross (Pairing.LanesMayCross).
- Pairing.Pipeline.CompleteResponse: one attempt per call; the sleep between attempts is a scheduling choice of the step model.
- Pairing.Pipeline.AppendPending: the connection the map cap evicts is any one, since Go's map order is unspecified; the Redis pipeline depth is left out.
- HubRates.RateWindow.ObserveRate: clock readings lie past the first five minutes of the epoch, as the source relies on for its modulo.
- HubRates.RateWindow.Windows: the rates are exact quotients, not floating point.
- HubStore.Store.Add: JSON encoding is a parameter, entries have distinct sequence numbers, and the protocol, status and facet counters are left out.
- HubPaging.PagingVisitsAllOnce: assumes ring order is sequence order, which holds when adds do not overlap; HubPaging.PagingVisitsAllOnceIff gives the exact condition.
- TopN.TopNBySort: sort values are reals, so NaN is left out; it returns the entries with their values.
- Resp.RoundTrip: rendering of values, redaction and the attribute map are left out; attributes are kept as their element list.
- PcapChecksum.ChecksumIff: sums are exact integers, as JavaScript numbers are up to 2^53.
- HexDump.ParseHexDump: white space is that of ASCII; the base64 form of the raw view is left out.
- Capture.ApiServer.Serve: the object always carries a resourceVersion, as the API server guarantees; HTTP errors appear as lost requests.
- Capture.ExpiryNeverMoves: active means active by the clock of every hub, since each goes by its own; RFC 3339 formatting is a parameter that drops fractions of a second; years past its last one are excluded.
- Capture.CaptureManager.StartSession: the class methods run one operation without interruption; interleavings are in the step model.
- FrontQueue.FrontClient.TrySend: one sender at a time in the class; concurrent senders are in the step model. Closing the channel and the ping ticker are left out.
- The lenient tokenizer of the browser's filter bar: it deliberately differs from the hub's lexer.
- React components other than the line diff and the inserted literal; auth tokens, CORS and redaction policies.
