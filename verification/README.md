# Verified model of the mirage-chaff core

This project models, in Dafny, the parts of the mirage-chaff server in which state and bytes are hardest to
get right, and proves what each part is for. Every algorithm that the program runs by changing things
step by step is a method or a class here, proved against a function; the theorems are then about those
functions, over all inputs, all runs or all reachable states.

- **The managed rewrite feed** (`internal/aghmanaged/manager.go`). Sources import lists of entries,
  large changes wait for review, operators patch entries and settle conflicts, edits can be rolled
  back, and a feed is generated from it all. `Store` holds the state; `Edits`, `Imports` and `Feed`
  define each public operation as one atomic step; `Manager` is the class whose methods are proved to
  be those steps; `Undo`, `Preview` and `History` prove what whole histories keep. `Patching`,
  `ImportRules`, `ConflictRules` and `FeedRules` say what the steps mean for the fields of sources,
  entries and overrides, without the functions the steps are made of.
- **Server name recovery and the QUIC relay** (`internal/quic`, `internal/passthrough`). `Varint`,
  `CryptoFrames`, `Initial`, `Reassembly`, `ClientHello` and `SniExtractor` go from protected
  datagrams to the server name; `RecordPeek` does the same over TLS records; `Relay` is the per-client
  flow machine built on top. `HelloRules`, `InitialRules` and `RelayLife` say exactly which bytes are
  read and which flows live.
- **Bounded structures**: `UnmatchedLru`, `TrafficRing`, `TokenBucket`, `Breaker`, `Decoy` and
  `DecoyServer`, each proved against a specification over traces; `DecoyBodies` and `DecoyRules` say
  what bodies and answers consist of.

The main results, hardest first:

1. However a client cuts its ClientHello into CRYPTO frames, orders, repeats and overlaps them and
   protects them in Initials, no answer of the extractor is ever wrong, and the name is reported no
   later than the datagram that completes the message (`SniExtractor.EveryAnswerIsRight`,
   `NameIsFoundByCompletion`, `ClientHelloIsRecovered`). The key is that the parser's answer is stable
   under extension (`ClientHello.AnswerIsStable`).
2. Over every run of the feed manager whose deletions leave no record behind, the undo log can be
   unwound (`History.RunKeepsUnwinds`). After any run from an empty log, without deletions and in which
   the log of fifty never had to forget a record, with rollbacks anywhere in it, rolling back what is
   left, newest first, empties the log if and only if every entry it touches is still stored, and then restores the
   overrides exactly (`History.WhatIsLeftCanBeUndone`, `History.OperatorsCanUndoAll`); the same for the
   at most fifty newest edits of a run that starts with a log (`History.EditsCanBeUndone`).
3. In every interleaving of the relay's steps, an upstream is written exactly its own client's
   datagrams since the flow began, in order and each once (`Relay.LiveFlowsConserve`,
   `Relay.UpstreamsConserve`, `Relay.RoutedUnderTheRightName`).
   Which flows live is exact as well (`RelayLife.UnroutedDatagram`, `RelayLife.ReapedExactly`).
4. The preview of a pending import agrees with the feed generated after approval
   (`Preview.PreviewOfNextIsRight`, `Preview.PreviewOfRemovedIsRight`); whatever the feed emits is safe
   (`Feed.EmissionIsSafe`), and exactly what the fields of entries, overrides and settings call for
   (`FeedRules.ServedExactly`, `FeedRules.PresetsDecide`, `ConflictRules.ReasonsMean`); its ledger
   balances over every run (`History.RunKeepsLedger`).
5. Removing QUIC header and packet protection inverts applying it
   (`Initial.ExtractInvertsProtect`), and reassembly is the longest gap-free prefix
   (`Reassembly.JoinIsLongest`, `Reassembly.JoinLengthIsLargest`).

Where the code falls short of a property, the failing input and the exact condition are proved:

- Deleting a source keeps the undo log unwindable exactly when no kept record touches its entries
  (`History.DeletionAndUndo`, `History.DeletionCanBreakUndo`).
- Undoing stops exactly at a record that touches an entry no longer stored, which a sync can bring
  about (`History.UndoNewestUnwinds`, `History.SyncCanBlockUndo`).
- Replay after a peek loses bytes exactly when the stream ends inside a read
  (`RecordPeek.ReplayIsExact`, `RecordPeek.PartialHeaderIsDropped`).
- A polling client misses records exactly when more than a ring of them arrive between two polls
  (`TrafficRing.MissingMeansFallingBehind`).
- A range is answered from one body exactly when the shape the request sees has that piece, which
  eviction and a changed probe can spoil (`DecoyServer.PieceFollowsShape`,
  `DecoyServer.EvictionCanChangeBody`); fewer other URLs than the cache holds cannot
  (`DecoyServer.PiecesTileWhileCached`).
- The end of an old pump drops a newer flow of its client exactly when there is one, and leaves that
  flow's upstream open without a flow (`Relay.PumpEndDrops`, `Relay.OldPumpStrandsNewFlow`).
- Entries of different domains are grouped together only when a domain contains a NUL
  (`ConflictRules.KeyIsPair`, `ConflictRules.NulDomainsShareAKey`), and unmatched hits of different
  pairs counted together only when a domain contains a space (`UnmatchedLru.KeyIsPair`,
  `UnmatchedLru.SpacedDomainsShareAKey`).
- A recorded feed has the size of its snapshot exactly when it includes no entry with an empty
  identifier (`Feed.GenerationBalances`, `Feed.EmptyIdentifierUnbalances`). Imports give every entry an
  identifier, so such an entry comes only from a store file, which is loaded as it is
  (`internal/aghmanaged/manager.go:333-344`).

Inputs of the model: what a fetch, a name resolution, a dial or a probe returned, clock readings, the
per-request nonce, and identifiers the program makes by hashing. The cipher suite is a value
`Initial.Ciphers`, of which only fixed output lengths and "open undoes seal" are asked; the hash behind
decoys is a function with 32-byte results; `strings.ToLower` and `strings.TrimSpace` are functions in
the configuration (what "medium" confidence means is stated for a lower-casing that leaves "medium" as
it is).

## Model

| member | source | states |
|---|---|---|
| ClientHello.Parse | internal/passthrough/sni.go:73-161 | The parser that consumes its input field by field computes the specification `ParseSNI` on every byte string. |
| ClientHello.ParseExtensions | internal/passthrough/sni.go:114-160 | The loop over extensions, bounded by the announced block length and by the bytes there are. |
| ClientHello.ParseNames | internal/passthrough/sni.go:136-158 | The loop over the server_name list (section 3 of RFC 6066). |
| ClientHello.AnswerIsStable | internal/passthrough/sni.go:73-161 | A non-empty answer on some bytes is the answer on every extension of them. |
| ClientHello.PrefixAnswersForStream | internal/passthrough/sni.go:73-161 | A non-empty answer on a prefix of a stream is the answer on the stream. |
| ClientHello.ParsesWhatWasWritten | internal/passthrough/sni.go:67-161 | Round trip: of every well-formed ClientHello (section 4.1.2 of RFC 8446), whatever follows, the first host_name of the first server_name extension that has one is reported, and nothing when there is none. |
| HelloRules.MessageIsRead | internal/passthrough/sni.go:73-161 | In every message that has a host_name behind extensions and entries that are passed over, however loosely the rest is formed, the name is found. |
| HelloRules.MessageWas | internal/passthrough/sni.go:73-161 | Every byte string in which a name is found is such a message, field by field. |
| HelloRules.AnswersExactly | internal/passthrough/sni.go:73-161 | A name is answered if and only if the bytes are a message that has it. |
| Varint.Decode | internal/quic/varint.go:5-19 | The shifting loop computes the variable-length integer of section 16 of RFC 9000, or nothing when bytes are missing. |
| Varint.DecodeInvertsEncode | internal/quic/varint.go:5-19 | Reading undoes writing at each of the four widths that fits the value, whatever follows. |
| Varint.EncodeInvertsDecode | internal/quic/varint.go:5-19 | Writing undoes reading: value and width determine the bytes. |
| Varint.DecodedFits | internal/quic/varint.go:5-19 | Every decoded value is below 2^62, so the 64-bit sums made from it are exact. |
| Varint.StandardExamples | internal/quic/varint.go:5-19 | The examples of section A.1 of RFC 9000. |
| CryptoFrames.Extract | internal/quic/initial.go:214-245 | The scan with a moving position yields exactly the chunks of `Chunks`. |
| CryptoFrames.ReadFrame | internal/quic/initial.go:217-243 | One turn of the scan: PADDING and PING are passed over, CRYPTO yields a chunk, anything else or a truncated frame ends it. |
| CryptoFrames.ReadCrypto | internal/quic/initial.go:223-238 | The offset, length and data of a CRYPTO frame (section 19.6 of RFC 9000). |
| CryptoFrames.ExtractInvertsEncode | internal/quic/initial.go:214-245 | Round trip: the chunks of any list of encoded frames are the CRYPTO frames' chunks, in order, followed by those of the rest. |
| CryptoFrames.ExtractedOffsetsFit | internal/quic/initial.go:214-245 | No extracted offset or end reaches 2^63, so no sum wraps. |
| CryptoFrames.ExtractIsDecoding | internal/quic/initial.go:212-245 | Every payload is a sequence of PADDING, PING and CRYPTO frames followed by nothing or by what is none of them, and exactly the chunks of those frames are extracted. |
| Reassembly.SinkInPlace | internal/quic/initial.go:257-259 | The inner loop of adjacent swaps inserts an element into the sorted front of the array, and leaves the rest. |
| Reassembly.SortInPlace | internal/quic/initial.go:254-260 | The in-place sort equals the specification `Sort`. |
| Reassembly.SortSorts | internal/quic/initial.go:254-260 | `Sort` orders by offset and is a permutation. |
| Reassembly.JoinChunks | internal/quic/initial.go:250-275 | The running join over the sorted copy computes `Join`. |
| Reassembly.JoinIsLongest | internal/quic/initial.go:250-275 | Every byte of the join comes from a chunk that has it at that offset, and the offset after the last byte is covered by no chunk. |
| Reassembly.JoinLengthIsLargest | internal/quic/initial.go:250-275 | The length of the join is the largest n such that every offset below n is covered. |
| Reassembly.JoinOfPieces | internal/quic/initial.go:250-275 | For chunks cut from one stream, the join is a prefix of it. |
| Reassembly.JoinIgnoresOrder | internal/quic/initial.go:250-275 | For chunks cut from one stream, only the set of covered offsets matters: not order, duplication or overlap. |
| Reassembly.JoinGrows | internal/quic/initial.go:250-275 | More chunks of the stream never shorten the join. |
| Reassembly.JoinOfCoveringPieces | internal/quic/initial.go:250-275 | Chunks covering the whole stream reassemble to it. |
| Initial.ExtractInitialCrypto | internal/quic/initial.go:60-162 | Walking the packet computes `ExtractInitial` on every datagram, each error included. |
| Initial.ReadHeader | internal/quic/initial.go:61-70 | First byte, version and minimum length, each with its own error. |
| Initial.ReadIds | internal/quic/initial.go:72-88 | Connection IDs and their truncations. |
| Initial.ReadToken | internal/quic/initial.go:89-102 | Token and payload length varints. |
| Initial.UnmaskPacket | internal/quic/initial.go:112-135 | The two halves of header protection: first byte, then as many packet number bytes as it says. |
| Initial.ReadPacketNumber | internal/quic/initial.go:126-135 | The unmasked packet number bytes and the number they spell. |
| Initial.BuildNonce | internal/quic/initial.go:149-155 | The IV with its last eight bytes masked by the packet number. |
| Initial.UnprotectPacket | internal/quic/initial.go:103-161 | Sample check, range check of the ciphertext, opening, and the frames of the plaintext. |
| Initial.UnprotectInverts | internal/quic/initial.go:103-161 | Removing both protections of sections 5.3 and 5.4 of RFC 9001 recovers what was sealed and masked. |
| Initial.ExtractInvertsProtect | internal/quic/initial.go:60-162 | For every packet of section 17.2.2 of RFC 9000, any IDs, token, varint widths, 1 to 4 byte packet number and coalesced trailing bytes: extraction yields exactly the chunks of the payload. |
| Initial.ExtractRecoversFrames | internal/quic/initial.go:60-245 | The same from the frames put in: exactly their CRYPTO chunks come out. |
| InitialRules.HeaderMeans | internal/quic/initial.go:61-102 | A datagram passes for a v1 Initial if and only if it is made of a long header of that type, version 1, IDs, token and length, which are then read as its header. |
| InitialRules.FrontErrors | internal/quic/initial.go:61-70 | Which of the first three errors is reported, and exactly when. |
| InitialRules.IdErrors | internal/quic/initial.go:72-88 | Where the connection IDs end, and exactly when each of their errors is reported. |
| InitialRules.TokenErrors | internal/quic/initial.go:89-100 | Exactly when each error of the token and the length is reported. |
| InitialRules.ProtectionErrors | internal/quic/initial.go:103-142 | Exactly when a datagram is too short for a sample, or states a length that does not fit. |
| InitialRules.ExtractedWasOpened | internal/quic/initial.go:103-161 | Whatever is extracted was opened under the keys of the datagram's own DCID, from bytes its length covers. |
| InitialRules.NonceAt | internal/quic/initial.go:149-155 | Byte by byte: the last eight bytes of the IV are masked by the packet number, most significant first, the others left. |
| InitialRules.StandardNonce | internal/quic/initial.go:149-155 | Packet number 2 under the IV of section A.1 of RFC 9001. |
| SniExtractor.SNIExtractor.Feed | internal/quic/initial.go:46-55 | One feed is `FeedStep`: chunks and packet count afterwards, and the answer. |
| SniExtractor.AnswerIsParseOfPrefix | internal/quic/initial.go:46-55 | In any run whose chunks are pieces of one stream, each answer is the parse of the longest prefix received, and it says done exactly when it has a name or the eighth datagram has come. |
| SniExtractor.EveryAnswerIsRight | internal/quic/initial.go:46-55 | No run ever answers a name other than the stream's. |
| SniExtractor.CompletingDatagramAnswers | internal/quic/initial.go:46-55 | A datagram that extracts and completes the stream is answered with its name. |
| SniExtractor.NameIsFoundByCompletion | internal/quic/initial.go:46-55 | Once the stream is covered its name has been answered, no later than the datagram that completed it; among the first eight, nothing before was given up. |
| SniExtractor.ClientHelloIsRecovered | internal/quic/initial.go:46-162 | End to end, from protected datagrams carrying a ClientHello in any pieces and order to its server name. |
| RecordPeek.ReadFull | internal/passthrough/sni.go:163-173 | Reads exactly n bytes off the connection, or all there are when it fails first, however reads cut them up. |
| RecordPeek.ReadRecord | internal/passthrough/sni.go:27-52 | One record header and body, with the failing, foreign and empty cases. |
| RecordPeek.PeekClientHello | internal/passthrough/sni.go:17-65 | The record loop computes `Peek`: the name, the bytes kept for replay, what is left unread, and how it ended. |
| RecordPeek.ReplayConn.Read | internal/passthrough/sni.go:181-188 | A read takes a prefix of buffer plus connection, and makes progress whenever it can. |
| RecordPeek.ReplayConn.ReadWith | internal/passthrough/sni.go:181-188 | Reading with any buffer sizes yields the stream in order, without loss or repetition. |
| RecordPeek.ReplayIsExact | internal/passthrough/sni.go:17-65 | What was kept plus what is left is the original stream if and only if the stream does not end inside a read; in particular whenever no read failed. |
| RecordPeek.PartialHeaderIsDropped | internal/passthrough/sni.go:27-30 | A stream on which replay loses bytes: a lone record type byte. |
| RecordPeek.FragmentationDoesNotMatter | internal/passthrough/sni.go:17-65 | Any cut of a ClientHello of at most 65536 bytes that states its length in its bytes 1 to 3 into at most eight non-empty records (section 5.1 of RFC 8446) gives the name in the whole message, and consumes exactly those records. |
| RecordPeek.HelloIsPeeked | internal/passthrough/sni.go:17-161 | End to end: a well-formed ClientHello with its length, so cut, is read without an error, its host_name is reported, and what follows is left unread. |
| RecordPeek.PeekReadsRecords | internal/passthrough/sni.go:17-65 | Every stream: the peek reads the handshake records at its front until their content is complete or eight are read, and otherwise stops, with the stated outcome, at a failing read, a record of another type or an empty one. |
| Relay.PassthroughRelay.Handle | internal/quic/quic.go:158-192 | A received datagram is `ReceiveStep`: written to the routed upstream, fed to the sniffer, or the start of a flow. |
| Relay.PassthroughRelay.ContinueSniff | internal/quic/quic.go:195-212 | One more datagram of an unrouted flow: keep waiting, give up, or route. |
| Relay.PassthroughRelay.RouteFlow | internal/quic/quic.go:214-258 | A dialled flow is registered and gets all pending datagrams in order; a failed dial leaves nothing. |
| Relay.PassthroughRelay.Reap | internal/quic/quic.go:123-143 | Visiting flows in any order drops exactly those idle for too long and closes exactly their upstreams. |
| Relay.PassthroughRelay.Reply | internal/quic/quic.go:235-245 | A reply refreshes whatever flow its client has now. |
| Relay.PassthroughRelay.PumpEnd | internal/quic/quic.go:246-249 | When a pump ends, its client's flow is dropped and its socket closed. |
| Relay.StepKeepsOwned | internal/quic/quic.go:123-258 | Every step keeps each routed flow on an open upstream of its own client. |
| Relay.StepKeepsUpstream | internal/quic/quic.go:123-258 | A step adds to an upstream at most the datagram that its own flow received. |
| Relay.LiveFlowsConserve | internal/quic/quic.go:123-258 | In every run a flow holds exactly its client's datagrams since it began: buffered and fed to the sniffer, fewer than eight of them, while unrouted; written to its upstream afterwards. |
| Relay.UpstreamsConserve | internal/quic/quic.go:123-258 | In every run what was ever written to an upstream is one unbroken stretch of its own client's datagrams, each once and in order, and its name is the extractor's answer on a prefix of them. |
| Relay.RoutedUnderTheRightName | internal/quic/quic.go:158-258 | In every run an upstream whose datagrams carry one handshake stream was dialled under that stream's server name. |
| Relay.PumpEndDrops | internal/quic/quic.go:246-249 | The end of a pump drops a flow not its own if and only if its client has one by then, and strands an upstream that had its flow if and only if that is another upstream of the same client. |
| Relay.OldPumpStrandsNewFlow | internal/quic/quic.go:123-258 | A run that reaches this: reap, dial again, and then the old pump ends. |
| RelayLife.UnroutedDatagram | internal/quic/quic.go:158-229 | What a datagram of an unrouted client leads to, exactly: a flow to a new upstream that gets everything so far, none when dialling fails or at the eighth datagram without a name, or a flow that waits on. |
| RelayLife.RoutedDatagram | internal/quic/quic.go:158-192 | A datagram of a routed flow is written to its upstream, and refreshes the flow. |
| RelayLife.FlowShowsLastHeard | internal/quic/quic.go:158-258 | In every run a flow's clock shows the last datagram of its client or the last reply of an upstream dialled for it. |
| RelayLife.ReapedExactly | internal/quic/quic.go:123-143 | In every run a tick leaves a client its flow if and only if the client was last heard of at most 120 seconds before. |
| RelayLife.ReapClosesExactly | internal/quic/quic.go:123-143 | A tick closes an upstream if and only if it drops the flow routed to it. |
| Catalog.PatchIsIdempotent | internal/aghmanaged/manager.go:2238-2281 | Merging the same patch twice is merging it once, so a repeated identifier in a bulk edit does no harm. |
| Catalog.SplitThenJoin | internal/aghmanaged/manager.go:2128-2142 | Splitting a grouping key and joining it again gives the key back, even when a domain contains the separator. |
| Conflicts.BuildConflicts | internal/aghmanaged/manager.go:2004-2098 | The grouping and scanning loops report exactly the conflicted keys, each with all its rows, of distinct entries once each, and all its reasons. |
| Conflicts.Classify | internal/aghmanaged/manager.go:2026-2075 | The scan of one group finds exactly its reasons; passing over a lone participant loses none. |
| Conflicts.NoConflictMeansAgreement | internal/aghmanaged/manager.go:2026-2116 | A key is free of conflict if and only if its participants (allow exceptions and rewritten rows) agree on category and review status and every rewritten row has a usable action. |
| ConflictRules.ReasonsMean | internal/aghmanaged/manager.go:2004-2142 | In the fields of entries and overrides: which entries of a domain and path make each of the five reasons, and that there is a conflict if and only if two with a say differ in category or review status, or a rewritten one has no action or an unsafe one. |
| ConflictRules.JoinThenSplit | internal/aghmanaged/manager.go:2128-2142 | A domain without NULs and a path are read back from their key, so such entries are grouped exactly by domain and path. |
| ConflictRules.NulDomainsShareAKey | internal/aghmanaged/manager.go:2128-2142 | With a NUL in a domain, different pairs share a key. |
| Undo.RestoreUndoesEdit | internal/aghmanaged/manager.go:1120-1183 | Restoring an edit's own record right after it gives the overrides before, exactly. |
| Undo.NewestStatesCurrent | internal/aghmanaged/manager.go:1090-1171 | In an unwindable log, the newest record that touches an entry has as its after the entry's current override. |
| Undo.SuccessiveRecordsChain | internal/aghmanaged/manager.go:1090-1171 | Successive records that touch an entry chain: the later one's before is the earlier one's after. |
| Undo.EditKeepsUnwinds | internal/aghmanaged/manager.go:1150-1183 | An edit with its record keeps the log unwindable, also when the oldest of fifty is dropped. |
| Undo.RollbackKeepsUnwinds | internal/aghmanaged/manager.go:1090-1132 | Rolling back from anywhere in the log a record that is newest for its entries keeps the log unwindable, and does not change where unwinding all of it leads. |
| Undo.RemovingOverrides | internal/aghmanaged/manager.go:471-485 | Removing overrides keeps the log unwindable if and only if no record touches them. |
| Edits.RollbackRestores | internal/aghmanaged/manager.go:1090-1132 | A rollback is refused, changing nothing, if and only if an entry is gone or a newer record overlaps; otherwise exactly the record's entries get their overrides back. |
| Patching.PatchMeans | internal/aghmanaged/manager.go:1036-1054 | Field by field: a patch overlays exactly the fields it states, and the named editor, on exactly the stored entry, and logs before and after among the newest fifty; on an unknown entry it changes nothing. |
| Patching.BulkPatchMeans | internal/aghmanaged/manager.go:1056-1079 | The same for every identifier of a list, all or nothing, in one record. |
| Patching.OverlayShows | internal/aghmanaged/manager.go:1716-1740 | After an overlay the patched entries show the stated fields over what they showed, and other entries what they showed. |
| Patching.UnpatchedShowsItself | internal/aghmanaged/manager.go:1716-1740 | An entry without an override shows its own fields. |
| Patching.ResolveMeans | internal/aghmanaged/manager.go:906-951 | A manual resolution overlays exactly the entry whose identifier comes first in dictionary order among the rewritten ones that are no allow exceptions, or among all when there are none. |
| Patching.StrLeqIsDictionary | internal/aghmanaged/manager.go:2077 | The order of identifiers is dictionary order. |
| Patching.PriorityMeans | internal/aghmanaged/manager.go:953-1034 | The row left alone is the one with a say whose source has a strictly higher priority than those of all others with a say, unknown sources counting as 0; every other row of the key is overlaid with its fields. |
| Patching.PriorityRefusedExactly | internal/aghmanaged/manager.go:953-1034 | In the same terms: refused, changing nothing, if and only if there is no such conflict, the highest priority is shared, or the key has a single row. |
| Edits.PriorityLeavesOnlyActions | internal/aghmanaged/manager.go:953-1034 | After a successful priority resolution whose winner states a category and a review status, the key can be in conflict only over actions. |
| Edits.PriorityKeepsOtherKeys | internal/aghmanaged/manager.go:953-1034 | The rows and reasons of every other key are unchanged. |
| Edits.PriorityRefusals | internal/aghmanaged/manager.go:953-1034 | It fails, changing nothing, if and only if there is no such conflict, the top priority among participants is shared, or there is no loser. |
| Imports.Replace | internal/aghmanaged/manager.go:1784-1795 | The two loops replace a source's entries by the list, later entries winning. |
| Imports.ComputeDiff | internal/aghmanaged/manager.go:1816-1836 | Added, removed and changed counts, as counted by the specification. |
| Imports.CountImported | internal/aghmanaged/manager.go:2167-2177 | Unsupported and allow-exception counts of a list. |
| Imports.ShareTest | internal/aghmanaged/manager.go:2189 | The rounded-down percentage test is the exact comparison of products. |
| Imports.TripsReview | internal/aghmanaged/manager.go:2179-2190 | The program's test, with its division, decides `LargeChange` for every count, size and threshold. |
| Imports.GateHolds | internal/aghmanaged/manager.go:487-531 | An import becomes pending if and only if it trips the large-change test, and then entries, overrides and undo log are what they were. |
| Imports.FailureAndRejectionKeepRules | internal/aghmanaged/manager.go:487-575 | A failed fetch and a rejection leave entries, overrides and undo log as they were. |
| Imports.ApprovalEqualsUngatedSync | internal/aghmanaged/manager.go:487-556 | A held-back sync followed by approval gives the same entries, pending lists, sources and feed times as letting the list straight in. |
| Imports.ImportKeepsOthers | internal/aghmanaged/manager.go:1784-1795 | Entries of other sources whose identifiers the list does not claim are untouched. |
| Imports.ImportReplacesSource | internal/aghmanaged/manager.go:1784-1795 | After an import the source has exactly the identifiers of the list. |
| ImportRules.SyncMeans | internal/aghmanaged/manager.go:487-531 | A successful sync records the fetch and the numbers of entries new, gone, altered, unsupported and allowing; it holds the list back if and only if review is on and the entries gone or altered reach the set number or percentage, and otherwise puts it in force. |
| ImportRules.FailureMeans | internal/aghmanaged/manager.go:487-508 | A failed fetch is recorded and changes nothing else; an unknown source changes nothing. |
| ImportRules.ApprovalMeans | internal/aghmanaged/manager.go:533-556 | An approval succeeds exactly on a known source with a pending list, counts it against what is stored now, and puts it in force. |
| ImportRules.RejectionMeans | internal/aghmanaged/manager.go:558-575 | A rejection drops the pending list and the mark for review, and nothing else. |
| ImportRules.DeletionMeans | internal/aghmanaged/manager.go:471-485 | A deletion takes the source, its pending list, its entries and their overrides and feed times, and nothing else. |
| ImportRules.UpsertMeans | internal/aghmanaged/manager.go:417-469 | A source is saved if and only if its kind and policy are known and it says where its rules come from; defaults are filled in and its sync record is kept. |
| ImportRules.ListIsInForce | internal/aghmanaged/manager.go:1784-1795 | Of a list in force each identifier has the last entry, filed under the source; the source's other entries are gone and those of other sources stay. |
| ImportRules.CountsMean | internal/aghmanaged/manager.go:1816-1836 | Added, removed and changed are the numbers of places of the list without, of the source's entries missing in, and of places of the list differing from what is stored. |
| Imports.UpsertKeeps | internal/aghmanaged/manager.go:417-469 | Saving a source keeps the undo log, the feed log and the rule that pending lists belong to sources under review. |
| Imports.DeleteKeeps | internal/aghmanaged/manager.go:471-485 | Deleting a source keeps the review rule, the feed log and the undo log, and removes only its own entries. |
| Feed.GenerateItems | internal/aghmanaged/manager.go:1393-1417 | Every stored entry gets the item the specification gives it, with the counts of included and excluded ones. |
| Feed.SnapshotDelta | internal/aghmanaged/manager.go:1529-1552 | The counting loops give the sizes of both differences of two snapshots. |
| Feed.IncludedMeans | internal/aghmanaged/manager.go:1627-1674 | What inclusion implies: a domain and no path, rewriting on, no allow exception, no conflict on the key, at least one line. |
| FeedRules.RewriteMeans | internal/aghmanaged/manager.go:2208-2236 | Whether an entry is rewritten, in the fields of entry, override and settings: the operator's flag, or else approved and verified (conservative), neither rejected nor disabled (aggressive), or approved, needs_test, or candidate of at least medium confidence (otherwise). |
| FeedRules.PresetsDecide | internal/aghmanaged/manager.go:1263-1417 | An entry that nothing else holds back is served if and only if its flag, or else the preset, says so in these terms. |
| FeedRules.ServedExactly | internal/aghmanaged/manager.go:1353-1417 | An entry is served if and only if it is a DNS rule for a whole domain, no allow exception, not rejected or disabled, not in conflict, not of an outdated source that excludes, rewritten, and there is a target; and then with exactly the lines of its domain. |
| FeedRules.ReasonIs | internal/aghmanaged/manager.go:1627-1674 | The reason given for each entry, in the order in which reasons apply. |
| FeedRules.LinesMean | internal/aghmanaged/manager.go:1676-1714 | The lines of a domain, character by character: one for the target name, one for each configured IPv4 and then IPv6 address, or one for each resolved address. |
| FeedRules.GenerationEnds | internal/aghmanaged/manager.go:1291-1372 | How every generation ends: emptied, disabled, without a target, or produced; and when the emergency feed is switched on. |
| FeedRules.TargetIsRemembered | internal/aghmanaged/manager.go:1291-1315 | Resolved addresses are remembered with the time, exactly when they were resolved. |
| FeedRules.GenerationRemembers | internal/aghmanaged/manager.go:1506-1552 | A successful recorded generation appends its account to the newest fifty, takes what it served as the snapshot and marks it as seen now; no other changes any of this. |
| Feed.EmissionIsSafe | internal/aghmanaged/manager.go:1263-1417 | When a generation serves an entry, no stored entry of its key is an effective allow exception, and every rewritten one agrees on category and review status and has an action that is neither empty nor a pass-through. |
| Feed.NothingWithoutLicence | internal/aghmanaged/manager.go:1344-1372 | The emergency feed, a disabled feed and a feed without a target include nothing. |
| Feed.EveryEntryIsCounted | internal/aghmanaged/manager.go:1353-1442 | In every successful generation included and excluded counts add up to the number of stored entries. |
| Feed.RecordingBalances | internal/aghmanaged/manager.go:1506-1552 | Recording a generation keeps the last recorded size equal to the snapshot's if and only if no included entry has an empty identifier; then successive sizes differ by added minus removed. |
| Feed.ChangesAddUp | internal/aghmanaged/manager.go:1506-1527 | Over any stretch of the history the added and removed counts sum to the difference of the sizes. |
| Feed.GenerateKeeps | internal/aghmanaged/manager.go:1263-1442 | Generating changes no source, entry, pending list, override or undo record. |
| Feed.GenerateBalances | internal/aghmanaged/manager.go:1263-1442 | Every generation, the emergency one included, keeps the ledger balanced when no stored entry has an empty identifier. |
| Feed.GenerationBalances | internal/aghmanaged/manager.go:1263-1527 | A recorded generation leaves the ledger balanced if and only if it includes no entry with an empty identifier. |
| Feed.EmptyIdentifierUnbalances | internal/aghmanaged/manager.go:1506-1552 | A store with one plain entry under an empty identifier makes a generation report one item more than its snapshot has. |
| Preview.PendingDiff | internal/aghmanaged/manager.go:577-590 | The preview lists exactly the added and changed entries in the order of the list, with what they replace and in which fields, and the removed entries, each with the verdict, reason and line count of its item. |
| Preview.ClassifyList | internal/aghmanaged/manager.go:1853-1867 | The loop over the new list sorts entries into added and changed. |
| Preview.CollectRemoved | internal/aghmanaged/manager.go:1868-1872 | The loop over the source's own entries finds those the list no longer has. |
| Preview.ReplaceSource | internal/aghmanaged/manager.go:1899-1911 | The two loops give the entries there would be after approval. |
| Preview.ConflictKeysFor | internal/aghmanaged/manager.go:1913-1926 | Applying overrides and building conflicts gives exactly the keys in conflict. |
| Preview.AddedMean | internal/aghmanaged/manager.go:1853-1855 | The added entries are exactly those of the list that the source does not have, one for each place. |
| Preview.ChangedMean | internal/aghmanaged/manager.go:1856-1889 | The changed entries are exactly those that the source has with another rule, category or resource type; each names what it replaces and those fields. |
| Preview.RemovedMean | internal/aghmanaged/manager.go:1868-1872 | The removed entries are exactly those of the source whose identifiers the list no longer has. |
| Preview.ApprovalStoresNext | internal/aghmanaged/manager.go:1899-1911 | Approval stores exactly the entries the preview assumed, for identifiers that are distinct and not used by other sources. |
| Preview.PreviewOfNextIsRight | internal/aghmanaged/manager.go:1838-1934 | An added or changed entry is marked included, and for the reason, if and only if the feed generated right after approval says so, with as many lines unless the target resolves to another number of addresses. |
| Preview.PreviewOfRemovedIsRight | internal/aghmanaged/manager.go:1838-1934 | The same for a removed entry and the feed generated right before approval. |
| Manager.Manager.PatchEntry | internal/aghmanaged/manager.go:1036-1054 | Is `PatchStep`: merges one patch and records it, or reports an unknown entry and changes nothing. |
| Manager.Manager.BulkPatchEntries | internal/aghmanaged/manager.go:1056-1079 | Is `BulkPatchStep`: all or nothing, one record for all. |
| Manager.Manager.EditEntries | internal/aghmanaged/manager.go:1150-1183 | Capturing, patching and recording with the cap of fifty is `EditStep`, for lists that may repeat identifiers. |
| Manager.Manager.ResolveConflict | internal/aghmanaged/manager.go:906-951 | Is `ResolveStep` on the least identifier among rewrite candidates, or among all rows when there is none. |
| Manager.Manager.ResolveConflictByPriority | internal/aghmanaged/manager.go:953-1034 | Is `PriorityStep`: losers take over the winner's classification. |
| Manager.FindWinner | internal/aghmanaged/manager.go:973-996 | The scan of distinct rows finds the only participant of highest source priority, or notices a tie. |
| Manager.FirstTarget | internal/aghmanaged/manager.go:920-928 | The scan finds the entry a manual resolution patches. |
| Manager.Manager.Rollback | internal/aghmanaged/manager.go:1090-1132 | Is `RollbackStep`: lookup, refusal and restoring loop. |
| Manager.RestoreAll | internal/aghmanaged/manager.go:1120-1126 | The restoring loop computes `Restore`. |
| Manager.Manager.UpsertSource | internal/aghmanaged/manager.go:417-469 | Is `UpsertStep`: defaults, validation, and an existing source's sync record kept. |
| Manager.Manager.DeleteSource | internal/aghmanaged/manager.go:471-485 | Is `DeleteStep`: the source, its pending list, entries, their overrides and feed times go. |
| Manager.Manager.SyncSource | internal/aghmanaged/manager.go:487-531 | Is `SyncStep`: failure recorded, list held back, or list put in force. |
| Manager.Manager.ApproveSource | internal/aghmanaged/manager.go:533-556 | Is `ApproveStep`: the pending list, recounted, is put in force. |
| Manager.Manager.RejectSource | internal/aghmanaged/manager.go:558-575 | Is `RejectStep`: the pending list is dropped. |
| Manager.Manager.Generate | internal/aghmanaged/manager.go:1263-1442 | Is `GenerateStep`: target, emergency and disabled cases, items, counts and what is recorded. |
| Manager.Manager.PrepareTarget | internal/aghmanaged/manager.go:1291-1352 | The addresses in use, stale ones within their time to live, and the automatic emergency switch. |
| Manager.Manager.Persist | internal/aghmanaged/manager.go:1506-1527 | The snapshot and the capped history after a recorded generation. |
| Manager.Manager.SetEmergencyEmpty | internal/aghmanaged/manager.go:1210-1216 | Only the emergency switch changes. |
| Manager.Manager.SetPreset | internal/aghmanaged/manager.go:1218-1227 | One of three presets is set, anything else refused with nothing changed. |
| History.StepKeepsValid | internal/aghmanaged/manager.go:417-575 | Every step keeps entries stored under their identifiers, and pending lists only for existing sources marked for review. |
| History.RunKeepsUnwinds | internal/aghmanaged/manager.go:1036-1183 | Over every run whose deletions leave no record behind, the undo log stays unwindable. |
| History.DeletionAndUndo | internal/aghmanaged/manager.go:471-485 | Deleting a source keeps the log unwindable if and only if no kept record touches one of its entries. |
| History.DeletionCanBreakUndo | internal/aghmanaged/manager.go:471-485 | A patch followed by deleting the entry's source leaves a record that no longer states any override. |
| History.RunUnwindsBack | internal/aghmanaged/manager.go:1036-1183 | After a run without rollbacks and deletions that makes at most fifty effective edits, undoing as many records leads back to its first overrides. |
| History.UndoNewestUnwinds | internal/aghmanaged/manager.go:1090-1132 | Rolling back the k newest records by identifier, newest first, goes on exactly until one touches an entry no longer stored, and has then unwound exactly; all k are undone if and only if all entries they touch are stored. |
| History.SyncCanBlockUndo | internal/aghmanaged/manager.go:1105-1108 | A patch followed by a sync that drops the entry: the log still states the current override, and the rollback is refused. |
| History.EditsCanBeUndone | internal/aghmanaged/manager.go:1036-1183 | After any run without rollbacks and deletions and with at most fifty effective edits under fresh record identifiers, rolling those back succeeds if and only if the entries they touched are still stored, and then restores the first overrides. |
| History.StepKeepsOrigin | internal/aghmanaged/manager.go:1036-1183 | While the log has room, no step but a deletion changes where undoing all of it leads, not even a rollback from its middle. |
| History.WhatIsLeftCanBeUndone | internal/aghmanaged/manager.go:1036-1183 | After a run of any length without deletions, rollbacks anywhere in it, in which no record had to be forgotten: rolling back what is left empties the log if and only if the entries it touches are still stored, and then leads where undoing the first log would have led, to the first overrides when that was empty. |
| History.OperatorsCanUndoAll | internal/aghmanaged/manager.go:1036-1183 | When moreover nothing is synced or approved, everything can always be undone. |
| History.RunKeepsLedger | internal/aghmanaged/manager.go:1263-1552 | Over every run of named imports and anything else, each recorded feed differs in size from the one before by what it reports as added and removed. |
| TokenBucket.RateLimiter.Take | internal/server/limits.go:31-48 | Refill, cap and spend are one `AllowStep`. |
| TokenBucket.NewRateLimiter | internal/server/limits.go:21-27 | No limiter for a non-positive rate; otherwise a full bucket. |
| TokenBucket.Allow | internal/server/limits.go:31-48 | A missing limiter admits everything. |
| TokenBucket.RunKeepsSound | internal/server/limits.go:31-48 | In every run tokens stay between zero and the burst. |
| TokenBucket.WindowBound | internal/server/limits.go:31-48 | In every run, any window from s to t admits at most burst + rate * (t - s) requests, whatever came before. |
| TokenBucket.SpacedRequestsPass | internal/server/limits.go:31-48 | Requests at least 1/rate apart are all admitted from any state with a whole token. |
| TokenBucket.FreshLimiterPassesSpaced | internal/server/limits.go:21-48 | A fresh limiter admits them all. |
| TokenBucket.RefusedExactly | internal/server/limits.go:21-48 | From a full bucket a request is refused if and only if admitting it would put more than burst + rate * (t - s) into some window that ends with it. |
| Breaker.Breaker.Allow | internal/server/breaker.go:38-55 | Is `AllowStep`: refuse while open, reset once the cooldown is over. |
| Breaker.Breaker.RecordSuccess | internal/server/breaker.go:58-65 | Is `SuccessStep`. |
| Breaker.Breaker.RecordFailure | internal/server/breaker.go:68-84 | Is `FailureStep`: the threshold-th failure opens, later ones do not extend. |
| Breaker.Breaker.Open | internal/server/breaker.go:87-92 | Open is exactly what `Allow` would refuse. |
| Breaker.RecordIsWindow | internal/server/breaker.go:38-84 | After every trace a domain's record is its failures since the last reset, and opens at the threshold-th. |
| Breaker.OtherDomainsDoNotMatter | internal/server/breaker.go:38-92 | Events of other domains never change an answer. |
| Breaker.RefusedExactlyWhenOpen | internal/server/breaker.go:38-92 | A request is refused if and only if the threshold-th failure since the last reset lies less than a cooldown ago with no success since. |
| TrafficRing.Recorder.Log | internal/observability/record.go:152-160 | The log grows by one record, and the ring keeps holding its newest ones. |
| TrafficRing.Recorder.SnapshotSince | internal/observability/record.go:208-234 | A poll returns the new cursor and the records since the old one that the ring still holds. |
| TrafficRing.Recorder.Seq | internal/observability/record.go:237-241 | The cursor a new client of the live stream starts from is the number of records logged so far. |
| TrafficRing.Recorder.Snapshot | internal/observability/record.go:244-264 | The newest n of the last min(total, size) records, in order. |
| TrafficRing.StreamIsComplete | internal/observability/record.go:152-241 | From any log and cursor at joining, in every run with at most a ring of records between polls, a client that passes back its cursor has received every record from its first cursor to its last poll, exactly once and in order. |
| TrafficRing.MissingMeansFallingBehind | internal/observability/record.go:208-234 | From any log and cursor at joining, a client misses records if and only if more than a ring of them arrived before some poll. |
| TrafficRing.LiveStreamIsComplete | internal/observability/record.go:204-241 | A client that joins at the current count and keeps up receives exactly what is logged after it joined, whatever the ring held. |
| UnmatchedLru.Aggregator.Record | internal/policy/engine.go:121-141 | Map and linked list stay in one-to-one correspondence, and the entries change by `RecordStep`. |
| UnmatchedLru.ListIsMostRecent | internal/policy/engine.go:121-141 | Over every trace the list is exactly the max most recently seen distinct keys, in recency order. |
| UnmatchedLru.RecencyListsKeys | internal/policy/engine.go:121-141 | The recency order lists every key of the trace once. |
| UnmatchedLru.RecencyIsOrdered | internal/policy/engine.go:121-141 | It is ordered by when each key was last seen. |
| UnmatchedLru.CountsAreHits | internal/policy/engine.go:121-141 | Over every trace each count is the number of hits since its key last entered. |
| UnmatchedLru.KeyIsPair | internal/policy/engine.go:121-141 | For domains without spaces a key stands for one domain and path. |
| UnmatchedLru.SpacedDomainsShareAKey | internal/policy/engine.go:121-141 | With a space in a domain, the hits of two pairs go into one entry. |
| UnmatchedLru.EntryShowsLastHit | internal/policy/engine.go:121-141 | Over every trace of domains without spaces, each entry is of a pair that was hit and shows when that was last. |
| UnmatchedLru.EntriesAreOfDifferentPairs | internal/policy/engine.go:121-141 | Different entries are of different pairs. |
| Decoy.MakeKeystream | internal/mimic/generator.go:184-200 | The counter loop computes the keystream. |
| Decoy.KeystreamPrefix | internal/mimic/generator.go:184-200 | A shorter keystream is a prefix of a longer one. |
| DecoyBodies.KeystreamAt | internal/mimic/generator.go:184-200 | Byte 32 * i + j of the keystream is byte j of the hash of the seed's hash and i in eight bytes. |
| DecoyBodies.Base64ReadsBack | internal/mimic/generator.go:172-180 | Decoding the base64url text (section 5 of RFC 4648) gives the encoded bytes. |
| DecoyBodies.ScriptIs | internal/mimic/generator.go:141-155 | A script is the no-op statement, behind a comment of encoded keystream when there is room. |
| DecoyBodies.ImageIs | internal/mimic/generator.go:157-169 | An image is a PNG or GIF of one pixel, as the content type says, followed by the keystream. |
| DecoyBodies.OtherIs | internal/mimic/generator.go:102-114 | Everything else is the keystream; only a negative length is refused. |
| Decoy.LengthIsExact | internal/mimic/generator.go:102-169 | Above the media's minimum a body has exactly the requested length, below it the smallest body. |
| Decoy.CommentClosesOnce | internal/mimic/generator.go:141-180 | The padding of a script never closes its comment. |
| Decoy.RangesTile | internal/mimic/generator.go:116-130 | However a body is cut into ranges, the last of which may ask for more than there is, regenerating them one by one and joining them gives the full body. |
| DecoyServer.RangeIsInside | internal/mimic/handler.go:261-303 | A parsed range (section 14.1.2 of RFC 9110) is a non-empty slice inside the body if and only if the body is not empty. |
| DecoyServer.ParseInvertsHeader | internal/mimic/handler.go:261-303 | The header written for a range parses back to it, cut off at the end of the body. |
| DecoyServer.PieceOfBody | internal/mimic/handler.go:180-201 | A request for a range inside the body is answered 206 with exactly those bytes, their positions and their number. |
| DecoyRules.OpenRange | internal/mimic/handler.go:261-303 | An open range is granted if and only if it starts inside the body, up to its end. |
| DecoyRules.SuffixRange | internal/mimic/handler.go:261-303 | A suffix is granted unless it is empty: that many last bytes, or all. |
| DecoyRules.BackwardRange | internal/mimic/handler.go:261-303 | A range that ends before it starts is not granted. |
| DecoyRules.OtherHeaders | internal/mimic/handler.go:261-303 | Another unit, several ranges or no dash are not granted. |
| DecoyRules.WholeBody | internal/mimic/handler.go:180-201 | Without a granted range the whole body is sent, as 200. |
| DecoyRules.PartOfBody | internal/mimic/handler.go:180-201 | A granted range is sent as 206, with its positions and its bytes. |
| DecoyRules.HeadIsGetWithoutBody | internal/mimic/handler.go:180-201 | HEAD gets what GET would, without the body. |
| DecoyRules.SuffixCompletes | internal/mimic/handler.go:180-303 | The first bytes and the rest, asked for as a suffix or as an open range, are the body. |
| DecoyServer.Evict | internal/mimic/handler.go:111-121 | Eviction drops exactly as many entries as exceed the limit, none used later than one that stays. |
| DecoyServer.Handler.StoreDecoy | internal/mimic/handler.go:107-122 | What was served is stored and the cache trimmed to its limit, least recently used first. |
| DecoyServer.Handler.Serve | internal/mimic/handler.go:128-201 | Is `ServeStep` at any clock: what is sent for GET and HEAD, when nothing is, that a cached shape is reused, and what is cached with its hash. |
| DecoyRules.ServeMeans | internal/mimic/handler.go:128-178 | A request is refused if and only if it is for video without leave, too large, or of a negative length; what is sent and cached otherwise, under which seed. |
| DecoyRules.HashesAreRegenerable | internal/mimic/handler.go:128-178 | In every run, in either mode, every cached hash is that of the body its cached seed and shape make. |
| DecoyServer.Handler.Lookup | internal/mimic/handler.go:94-103 | The cached decoy, which is marked as used. |
| DecoyServer.ServeAll | internal/mimic/handler.go:128-201 | A handler serving any requests goes through a run of such steps. |
| DecoyServer.SeenIsLatest | internal/mimic/handler.go:128-156 | In every run the shape a request sees is its own probe when it misses, and otherwise that of the latest miss before it, or what was cached at the start. |
| DecoyServer.PieceFollowsShape | internal/mimic/handler.go:128-201 | In every run of a deterministic handler, at any clock and among any requests, a range is answered with that piece of a body if and only if the body of the shape it sees has the piece, and what is then cached has that body's hash. |
| DecoyServer.PiecesTile | internal/mimic/handler.go:128-201 | In every such run, the pieces of any tiling, asked for in any order, join to the body whenever each request sees its shape. |
| DecoyServer.StableProbeIsSeen | internal/mimic/handler.go:128-156 | With a probe that does not change, every request sees that shape, evicted or not. |
| DecoyServer.ServedStaysCached | internal/mimic/handler.go:94-122 | With an advancing clock, a URL that was served stays cached while fewer other URLs are requested than the cache holds. |
| DecoyServer.PiecesTileWhileCached | internal/mimic/handler.go:94-201 | So while fewer other URLs are requested than the cache holds, the pieces join to one body even if probing changes. |
| DecoyServer.EvictionCanChangeBody | internal/mimic/handler.go:107-178 | A cache of one, another URL in between and a changed probe: the second answer is not the second piece. |

## Left out

- Locks and goroutines: each public method of the feed manager is one atomic step; the program releases the lock between reading and writing in `SyncSource` and `generate`, and interleavings there are not modelled.
- AES, AES-GCM, HKDF and SHA-256 are parameters; of the key derivation (`internal/quic/initial.go:164-205`) only the IV's length is used.
- Persistence, HTTP fetching, rule parsing, DNS resolution and the AdGuard Home API: their results are inputs of a step.
- Entry fields, summaries, error texts (the reason given without a target is one) and times that are only displayed; the feed's comment lines and the order of its lines; the sorted order of conflict and preview lists.
- Identifiers made by hashing are inputs; a conflict is named by its key instead of the key's hash.
- Catalogue pages, facets and queries, `PreviewSource`, `SyncDue`, `RefreshTarget`, `Status` and health text: settled by reading single branches.
- The entry identifiers of an undo record are a set; the program keeps them as a list without repetitions, for display.
- Relay.PassthroughRelay.RouteFlow: a write is what the relay hands to a socket; whether the network delivers it, and interleavings with a pump inside one step, are not modelled. A flow's sniffer is held as a value.
- Listening, closing and port parsing of the relay, and the HTTP/3 server.
- RecordPeek.ReadFull: takes a connection to fail only in a read after the last byte it delivers, as TCP connections do; a reader that returns bytes together with an error, and deadlines, are not modelled.
- TokenBucket.RateLimiter.Take: is over real numbers; floating-point rounding is not modelled.
- TrafficRing.Recorder.Log: leaves out the counters and the log line; redaction is a function on records.
- Policy rules, temporary rules, `top`, metrics text and `RedactURL`: thin layers over regular expressions and sorting, with easy properties.
- DecoyServer.Handler.Serve: leaves out the constant headers. Probing, classifying and default types and lengths are inputs.
- Manager.Manager.Generate: leaves out the text of the feed, the order of its lines, and the numbers of pending and stale sources it reports.
- Preview.PendingDiff: leaves out source references and the sorting of its lists; removed entries, which come in the order of a map, are a set.
- Admin interface, access control, certificates, header handling and reverse proxying.
