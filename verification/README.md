# Verified models of the gateway's stateful cores

Six parts of the gateway carry real state or arithmetic and depend on little else. Each is modelled here and proved
against an independent specification:

- **The multi-pattern matcher** (`PatternMask`, `AhoCorasick`). A trie is grown pattern by pattern and turned in place,
  breadth first, into a goto automaton with merged output lists; 512-bit masks collect the hits. The specification is
  plain substring containment.
- **The response cache** (`CacheStore`, `CacheEviction`, `ResponseCache`, `CacheProtocol`, `CacheHistory`,
  `CacheRefinement`, `FillElection`). The class is proved against maps: counters, shards and reverse index are exact
  after every call. `CacheProtocol` has the same operations cut into their critical sections and atomic accesses, for
  any number of threads and any interleaving; `CacheHistory` says which value a lookup answers in such a run;
  `CacheRefinement` proves that the methods of the class take the steps of the protocol.
- **The HTTP/2 extended-CONNECT stream** (`H2Frame`, `H2Stream`, `H2Laws`). Frame layout, the reader as a fold over
  frames, what it has done told from the frames handled alone, flow
  control in both directions, the writer interleaved with the reader.
- **HTTP/3 routing and lifecycle** (`Http3Routes`, `Http3Sni`, `Http3Lifecycle`). The route table, the certificate map
  under every map iteration order, body registration against close, `Spin` against `Shutdown`.
- **The rewriting connections** (`FixUri`). Two stacked connections refine one edited byte stream under any chunking.
- **The query cache and the CAA decision** (`QueryCache`, `Caa`, `CaaSpelling`). Index against scan; the
  decision against RFC 8659, for every spelling of names, issuers and tags.

Classes keep the source's fields and update them in place; each method's contract ties the new state to a function or a
relation of the old one, and lemmas say what that function or relation means. Where map order, sorting ties, scheduling,
chunking or failures decide, the model leaves the choice open and the results hold for every choice. Clocks, the network,
decoders and normalisers are parameters.

## Where the code differs from what is said about it

- An empty pattern is reported only at positions where no pattern has begun, because the outputs of the root are not
  merged into other states; the mask is the naive answer on every target exactly when none of the first 512 patterns is
  empty (`AhoCorasick.MaskIsNaiveIff`).
- A frame of 2^24 bytes or more is printed under its length modulo 2^24 and does not read back
  (`H2Frame.PrintParse`, `H2Stream.DataFrameReadsBack`). The writer sends such a frame when the upstream grants enough
  credit and announces no maximum frame size (`H2Stream.OversizedRun`).
- The connection credit starts at 65536; section 6.9.2 of RFC 9113 starts it at 65535. The writer has overspent exactly
  when its own credit is zero (`H2Stream.OverspentIff`), and one call can do it (`H2Stream.OverspendingRun`).
- The request-line edit looks only at the first chunk: a chunk that ends at or before the first space, or right after
  it, is handed through unedited (`FixUri.EditSeesEnoughIff`).
- A flush that fails part-way keeps the whole buffer, so the bytes that did go out will be sent again: wire and buffer
  are the written bytes in order exactly when no byte went out (`FixUri.FixURIHertzConn.Flush`).
- The certificate map is the same for every iteration order exactly when no listener's name is another's followed by a
  NUL character (`Http3Sni.OrderFreeIffSeparable`).
- Removing a live namespace by its index is the prefix scan exactly when no other live namespace begins with the prefix
  (`QueryCache.IndexEqualsScanIff`).
- Critical `accounturi` and `validationmethods` records are let through, although RFC 8659 has every critical record
  with an unknown property rejected. The decision differs from the standard's exactly when the nearest record set would
  otherwise allow issuance, has no critical tag outside the program's five, and has a critical record with one of these
  two tags (`Caa.LenientIff`, `Caa.LenientWitness`).
- The generation of the response cache is a 64-bit counter, so the fence lets a late fill through exactly when the
  number of clears and purges since its read is a multiple of 2^64 (`CacheProtocol.SameGenerationIff`). The number is
  raised before the removal, under the exclusive lock: a fill that reads it while a clear or purge is under way counts
  as newer and may store after it. The fence therefore counts from the raise, not from the end of the call.

## Model

| member | source | states |
|---|---|---|
| PatternMask.SetAddsOne | internal/ac/ac.go:24-28 | or-ing the shifted one into its word adds exactly that pattern to the set the eight words represent, and keeps the words within 64 bits |
| PatternMask.OrIsUnion | internal/ac/ac.go:146-150 | word-wise or is set union |
| PatternMask.CommonMember | internal/ac/ac.go:30-37 | two masks share a member exactly when some pair of words has a non-zero conjunction |
| PatternMask.Mask.Set | internal/ac/ac.go:24-28 | an index from 0 to 511 is added; any other leaves the mask as it is |
| PatternMask.Mask.Intersects | internal/ac/ac.go:30-37 | true exactly when the two sets have a common member |
| PatternMask.Mask.MergeFrom | internal/ac/ac.go:146-150 | the mask becomes the union of the two sets; the other mask stays |
| AhoCorasick.LongestSuffixIsLongest | internal/ac/ac.go:84-92 | a trie word is a suffix of the text read exactly when it is a suffix of the longest remembered one |
| AhoCorasick.SuffixStep | internal/ac/ac.go:84-92 | reading one more byte after remembering only the longest suffix state gives the same state as reading the whole text |
| AhoCorasick.OutputsExact | internal/ac/ac.go:81-83 | a merged output list holds exactly the non-empty patterns that are suffixes of the state's word |
| AhoCorasick.OutputsNoRepeats | internal/ac/ac.go:81-83 | and each of them once |
| AhoCorasick.WithEdgeKeepsTrie | internal/ac/ac.go:53-62 | a new state under a missing edge keeps the table a trie with distinct words |
| AhoCorasick.RecordPattern | internal/ac/ac.go:63-64 | recording the number at the state reached keeps the table the trie of the patterns, each state with exactly its own numbers |
| AhoCorasick.FrontierPush | internal/ac/ac.go:86-90 | a child reached through a trie edge was never queued before, and the queue stays in depth order over at most two depths |
| AhoCorasick.FrontierNext | internal/ac/ac.go:77-80 | taking the head of the queue keeps the breadth-first invariant and forgets no state |
| AhoCorasick.ShallowerIsDone | internal/ac/ac.go:81-82 | every state strictly shallower than the one being expanded, hence its fail state, has been expanded |
| AhoCorasick.EveryStateIsDone | internal/ac/ac.go:77-94 | when the queue has run empty every state has been expanded |
| AhoCorasick.FailStep | internal/ac/ac.go:86-91 | the fail state's finished edge leads to the longest proper suffix of the extended word |
| AhoCorasick.FillCell | internal/ac/ac.go:90-92 | overwriting a missing edge turns that cell, and no other, from a trie cell into an automaton cell |
| AhoCorasick.MergeOutputs | internal/ac/ac.go:81-83 | appending the fail state's list gives the merged list of the state, the others unchanged |
| AhoCorasick.Expand | internal/ac/ac.go:84-93 | the inner loop completes one row of the goto function, links and queues exactly the row's trie children |
| AhoCorasick.Builder.AddPattern | internal/ac/ac.go:50-66 | returns the next number; the table is the trie of the patterns with the new one added at the end |
| AhoCorasick.Builder.Build | internal/ac/ac.go:68-95 | the table becomes the total automaton of exactly the patterns added; every non-root state is dequeued exactly once, in depth order |
| AhoCorasick.OutputsAreSeen | internal/ac/ac.go:97-126 | in the state reached after a text, the outputs are the patterns ending there, and the empty ones only where nothing is pending |
| AhoCorasick.SeenIsReported | internal/ac/ac.go:112-126 | seen at some position of the target, for a non-empty pattern, is contained in the target |
| AhoCorasick.Matcher.Follow | internal/ac/ac.go:103-104 | following the table keeps the current state the longest suffix of what has been read |
| AhoCorasick.Matcher.MatchAny | internal/ac/ac.go:97-110 | true exactly when some pattern is reported on the target |
| AhoCorasick.Matcher.MatchMask | internal/ac/ac.go:112-126 | the mask holds exactly the reported patterns with numbers below 512 |
| AhoCorasick.Matcher.MatchMaskSlice | internal/ac/ac.go:128-144 | the mask is the union over the targets |
| AhoCorasick.MaskIsNaiveIff | internal/ac/ac.go:112-126 | the mask equals naive containment on every target exactly when none of the first 512 patterns is empty |
| AhoCorasick.NoMatchAcrossTargets | internal/ac/ac.go:128-144 | a non-empty pattern is in the slice mask exactly when it occurs inside one single target |
| CacheStore.InItems | internal/cache/response_cache.go:224-231 | an entry is found in the shard of its key and nowhere else |
| CacheStore.DecimalInjective | internal/cache/response_cache.go:647-649 | different site numbers have different decimal forms |
| CacheStore.IndexKeyInjective | internal/cache/response_cache.go:647-649 | two index keys are equal exactly when both site and path are |
| CacheStore.PathIsCut | internal/cache/response_cache.go:679-684 | cutting at the first question mark finds the one question-mark-free beginning that is the target or is followed there by a question mark |
| CacheStore.AddKeepsExact | internal/cache/response_cache.go:651-662 | adding a key keeps the index exact: under each (site, path) exactly the keys of stored entries with that site and path |
| CacheStore.RemoveKeepsExact | internal/cache/response_cache.go:664-677 | removing a key keeps it exact and leaves no empty bucket |
| CacheStore.PutConsistent | internal/cache/response_cache.go:456-477 | replacing or inserting an entry keeps shards, byte sum, entry count and index exact, and changes only that key |
| CacheStore.DropConsistent | internal/cache/response_cache.go:329-334 | so does deleting one |
| CacheStore.TouchConsistent | internal/cache/response_cache.go:341-341 | so does refreshing an access time |
| CacheEviction.EvictionRestoresLimits | internal/cache/response_cache.go:507-570 | after eviction both limits hold; nothing but removals happened, and none if the limits held |
| CacheEviction.ExpiredGoFirst | internal/cache/response_cache.go:511-529 | if an unexpired entry was evicted, no expired one remains |
| CacheEviction.VictimsAreOldest | internal/cache/response_cache.go:534-567 | an evicted unexpired entry was used no later than any entry that stays |
| CacheEviction.NewestSurvives | internal/cache/response_cache.go:422-478 | the entry just stored survives the eviction when it is the most recently used |
| CacheEviction.SubMapFits | internal/cache/response_cache.go:507-509 | removing entries never breaks a limit |
| CacheEviction.IndexedIsPurged | internal/cache/response_cache.go:617-645 | the keys indexed under a (site, path) are exactly what a full scan for site and path would find |
| CacheEviction.DropAllConsistent | internal/cache/response_cache.go:617-645 | any sequence of single deletions keeps everything exact and removes exactly its keys |
| CacheEviction.StoreIsDetermined | internal/cache/response_cache.go:57-70 | the entries determine shards, index and both counters |
| CacheEviction.SmallerIsReached | internal/cache/response_cache.go:617-645 | every consistent store with fewer entries is reached by single deletions |
| ResponseCache.EstimateSize | internal/cache/response_cache.go:480-492 | an entry is charged at least the fixed overhead, so its size is positive |
| ResponseCache.SizeIsBytes | internal/cache/response_cache.go:480-492 | the charge is 256 and the bytes of key, target, content type, body and every header name and value |
| ResponseCache.ResponseCache.constructor | internal/cache/response_cache.go:93-123 | an empty enabled cache with at least one entry allowed |
| ResponseCache.ResponseCache.SetIfGenerationLocked | internal/cache/response_cache.go:422-478 | stores exactly when enabled, non-empty, within a tenth of the budget and of the current generation; then the content is an eviction of the old one with the entry put in, and the entry, if it is still there, has the given response, site, target, times and size |
| ResponseCache.ResponseCache.EvictToMaxSizeLocked | internal/cache/response_cache.go:507-570 | expired entries shard by shard until the limits hold, then a shortest prefix in access order |
| ResponseCache.ResponseCache.EvictOldestLocked | internal/cache/response_cache.go:534-567 | the second round removes a shortest sufficient prefix of the keys sorted by access time |
| ResponseCache.SortedByAccess | internal/cache/response_cache.go:534-553 | all keys, each once, by ascending access time |
| ResponseCache.ResponseCache.CleanExpiredEntries | internal/cache/response_cache.go:759-782 | exactly the expired entries go |
| ResponseCache.ResponseCache.Lookup | internal/cache/response_cache.go:238-253 | the stored entry, expired or not; only its access time changes |
| ResponseCache.ResponseCache.LookupIfGeneration | internal/cache/response_cache.go:260-278 | the same, and nothing for another generation |
| ResponseCache.ResponseCache.LookupFreshIfGeneration | internal/cache/response_cache.go:286-297 | an unexpired entry of the caller's generation; an expired one is neither returned nor removed |
| ResponseCache.ResponseCache.LookupStaleIfGeneration | internal/cache/response_cache.go:304-310 | an expired entry of the caller's generation within the stale window |
| ResponseCache.ResponseCache.Get | internal/cache/response_cache.go:312-344 | the unexpired entry under the key; an expired one is removed and nothing else is |
| ResponseCache.ResponseCache.PurgeSiteTarget | internal/cache/response_cache.go:617-645 | with p the part of the target before its first question mark, removes exactly the entries of the site whose target is p or begins with p and a question mark, and starts a new generation |
| ResponseCache.ResponseCache.Clear | internal/cache/response_cache.go:699-716 | empties everything and starts a new generation |
| ResponseCache.ResponseCache.SetEnabled | internal/cache/response_cache.go:687-697 | switching off clears; anything else leaves the content |
| ResponseCache.ResponseCache.Stats | internal/cache/response_cache.go:719-728 | the counters report the number of entries and the sum of their sizes |
| CacheProtocol.LockStep | internal/cache/response_cache.go:699-716 | the read-write lock excludes a clearing or purging thread from everyone inside |
| CacheProtocol.StoreMove | internal/cache/response_cache.go:422-478 | a step only removes entries or refreshes access times, except a store, which adds one entry under a new identity |
| CacheProtocol.HeldStep | internal/cache/response_cache.go:325-341 | an entry a thread still holds on to is stored as it was read, or no longer stored |
| CacheProtocol.FenceStep | internal/cache/response_cache.go:456-463 | the generation numbers count clears and purges, modulo 2^64, in every thread that read one |
| CacheProtocol.CompletedBefore | internal/cache/response_cache.go:617-645 | a clear or purge becomes complete by its own removal only |
| CacheProtocol.SameGenerationIff | internal/cache/response_cache.go:456-463 | the generation check lets a fill through exactly when the number of clears and purges begun since it read the number is a multiple of 2^64, so for shorter runs when there was none |
| CacheProtocol.FreshStep | internal/cache/response_cache.go:456-463 | every stored entry was fetched after every completed clear or purge that covers it |
| CacheProtocol.OffStep | internal/cache/response_cache.go:687-697 | once a switch-off has finished nothing is stored and no thread is past the enabled check |
| CacheProtocol.InvStep | internal/cache/response_cache.go:312-344 | every step of every thread keeps all these invariants |
| CacheProtocol.EveryStateIsSafe | internal/cache/response_cache.go:422-478 | in every reachable state counters, shards and index are exact, both limits hold, and the invariants above hold |
| CacheProtocol.CutsOnlyGrow | internal/cache/response_cache.go:699-705 | the history of clears and purges only grows along a run |
| CacheProtocol.LateFillStoresNothing | internal/cache/response_cache.go:392-420 | a fill that read its generation before a clear or purge raised it stores nothing after that, with fewer than 2^64 of them since |
| CacheProtocol.LookupIsFenced | internal/cache/response_cache.go:260-278 | a generation-checked lookup answers only if nothing was cleared or purged since, and never with an entry from before a completed clear or purge that covers it |
| CacheProtocol.ExpiringGetSparesReplacement | internal/cache/response_cache.go:327-338 | a Get that saw an expired entry removes that very entry or nothing: a replacement and all other entries stay |
| CacheProtocol.StaysEmptyWhileOff | internal/cache/response_cache.go:687-697 | from the end of the removal that switching off makes, the cache stays empty until it is switched on, with any stores in flight |
| CacheHistory.StoredIsLatest | internal/cache/response_cache.go:422-478 | in every reachable state a stored entry is the one stored last under its key |
| CacheHistory.StepKeepsLatest | internal/cache/response_cache.go:422-478 | after a step an entry is the old one and was not stored over, or is the one this step stored |
| CacheHistory.PurgeTakesThePath | internal/cache/response_cache.go:617-645 | in every run a purge goes for the path of its target, and its removal leaves no entry of the site for that path |
| CacheHistory.GetIsLatest | internal/cache/response_cache.go:312-344 | in every interleaving a Get answers exactly when an unexpired entry is stored under the key, and with the one stored last under it |
| CacheHistory.LookupIsLatest | internal/cache/response_cache.go:260-278 | a generation-checked lookup answers exactly when the generation is current and an entry is stored, and with the one stored last |
| CacheRefinement.StoreTakesStep | internal/cache/response_cache.go:422-478 | a successful store of the class is a possible StoreEntry step, and leaves the store of that step |
| CacheRefinement.StoreIsAStep | internal/cache/response_cache.go:422-478 | an eviction of the content with the entry put in is reached from the put store by single deletions |
| CacheRefinement.CleanTakesStep | internal/cache/response_cache.go:759-782 | cleaning is a possible Clean step |
| CacheRefinement.PurgeTakesSteps | internal/cache/response_cache.go:617-645 | purging is the step that raises the generation and a possible Purge step |
| CacheRefinement.ClearTakesSteps | internal/cache/response_cache.go:699-716 | clearing is the step that raises the generation and the Wipe step |
| CacheRefinement.GetTakesSteps | internal/cache/response_cache.go:312-344 | a Get is the step LookGet and then ExpireGet or TouchHit, with the same answer |
| CacheRefinement.EvictionExists | internal/cache/response_cache.go:507-570 | every content has an eviction |
| CacheRefinement.RemovalExists | internal/cache/response_cache.go:507-570 | every smaller content is left by some deletions, with everything exact |
| CacheRefinement.ChoicesExist | internal/cache/response_cache.go:422-478 | in every reachable state a thread that is ready to store, clean or purge can do so |
| FillElection.InvStep | internal/cache/response_cache.go:578-609 | registrations are exactly the unreleased leaderships, closed channels exactly the released ones |
| FillElection.RunInv | internal/cache/response_cache.go:578-609 | and so in every state of every run |
| FillElection.OneLeaderPerKey | internal/cache/response_cache.go:578-609 | a key has at most one unreleased leader at any moment of any run |
| FillElection.FollowerWaitsForRelease | internal/cache/response_cache.go:583-592 | a follower returns without error only after its leader's release, and is never stranded |
| FillElection.FollowerWaitsForItsKey | internal/cache/response_cache.go:578-596 | in every run whoever begins a fill leads under a fresh channel exactly when its key has no unreleased leader, and otherwise waits for that leader |
| FillElection.ReleaseIsExact | internal/cache/response_cache.go:597-608 | release is idempotent, removes the leader's own registration and never a successor's |
| FillElection.FillTable.BeginFill | internal/cache/response_cache.go:578-609 | leader exactly when the key has no unreleased leader; a follower gets that leader's channel |
| FillElection.FillTable.Release | internal/cache/response_cache.go:597-608 | the table step of the run system |
| H2Frame.BigEndianRoundTrip | internal/dataplane/h2_ws_frame.go:531-542 | k bytes written big-endian read back modulo 256^k |
| H2Frame.PrintParse | internal/dataplane/h2_ws_frame.go:531-542 | a printed frame followed by anything reads back exactly when its payload is below 2^24 bytes and its stream id below 2^31 |
| H2Frame.Layout | internal/dataplane/h2_ws_frame.go:531-542 | the nine header bytes of a frame, one by one |
| H2Frame.ParsePrint | internal/dataplane/h2_ws_frame.go:290-311 | printing what was parsed restores the input, up to the reserved bit |
| H2Frame.PrintedFramesReadBack | internal/dataplane/h2_ws_frame.go:290-311 | any concatenation of printed frames reads back as the same sequence, whatever incomplete frame follows |
| H2Frame.PrependH2FrameHeader | internal/dataplane/h2_ws_frame.go:531-542 | the nine header bytes written one by one, and the payload, are the printed frame |
| H2Stream.SettingsKeep | internal/dataplane/h2_ws_frame.go:440-459 | SETTINGS keep both flow-control accounts; an overwritten stream window starts a new account |
| H2Stream.ApplyKeeps | internal/dataplane/h2_ws_frame.go:313-420 | every frame keeps the receive band [2^20, 2^30] with equal counters, the stream credit conserved since the last SETTINGS that overwrote it, and both send credits non-negative |
| H2Stream.PassesKeep | internal/dataplane/h2_ws_frame.go:277-311 | and so does any number of passes of the reader; it handles a prefix of the frames in order, and connection credit left plus DATA bytes sent or lost stays the initial window plus the updates handled |
| H2Stream.ApplyGrants | internal/dataplane/h2_ws_frame.go:313-420 | a frame raises the connection credit by exactly what it grants, and the reader writes no DATA |
| H2Laws.ReaderTold | internal/dataplane/h2_ws_frame.go:277-420 | while the reader has not stopped it has handled its first frames in order, and they alone tell what was delivered, the maximum frame size, both send credits, the header fragment and status, the PING answers, and the receive counter with the updates announced |
| H2Laws.DeliveredInOrder | internal/dataplane/h2_ws_frame.go:350-361 | the non-empty payloads of the stream-1 DATA frames handled are delivered in order, also when the reader has stopped, unless the caller closed the stream |
| H2Laws.FrameLimits | internal/dataplane/h2_ws_frame.go:374-390 | one frame: the payload delivered, the last id-5 value of at least 16384, the stream window, the grant |
| H2Laws.FrameHeaders | internal/dataplane/h2_ws_frame.go:327-349 | one frame: fragments are joined in order, a complete block is decoded and its status stored |
| H2Laws.PingReplies | internal/dataplane/h2_ws_frame.go:391-407 | a PING without ACK is answered by one PING ACK with the same eight bytes, no other is |
| H2Laws.DataReplies | internal/dataplane/h2_ws_frame.go:350-373 | a refund is one write of two updates of the credited amount, for the connection and for the stream of the frame |
| H2Laws.RefundIs | internal/dataplane/h2_ws_frame.go:362-372 | when a DATA frame takes the counters below 2^20 both go up by 2^20, otherwise they go down by its size |
| H2Laws.SettingsAcknowledged | internal/dataplane/h2_ws_frame.go:315-326 | unless a write fails every SETTINGS frame without ACK is acknowledged once |
| H2Laws.HowItEnds | internal/dataplane/h2_ws_frame.go:277-311 | the reader goes on exactly when there is a frame that neither breaks nor ends the stream; the first error is kept, and only a good end leaves the connection open |
| H2Laws.WhatBreaks | internal/dataplane/h2_ws_frame.go:313-420 | the frames that break the stream, by type, size, flags and open header block |
| H2Stream.Stream.ApplySettingsPayload | internal/dataplane/h2_ws_frame.go:440-459 | six bytes at a time, the settings of the payload in order; a ragged payload is an error and changes nothing |
| H2Stream.Stream.RefundRecvWindow | internal/dataplane/h2_ws_frame.go:462-488 | credits both windows by the smaller of the step and the deficits, and announces exactly that |
| H2Stream.Stream.ReadPayload | internal/dataplane/h2_ws_frame.go:508-520 | takes exactly the declared bytes; above the cap the input stays untouched |
| H2Stream.Stream.HandleFrame | internal/dataplane/h2_ws_frame.go:313-420 | acts as the frame-level meaning of the complete frame, which the laws of `H2Laws` pin; a branch without error consumes exactly the declared length |
| H2Stream.NextFrame | internal/dataplane/h2_ws_frame.go:290-301 | a complete header and payload at the front of the input is its next frame, and there is none otherwise |
| H2Stream.Stream.ReadFrame | internal/dataplane/h2_ws_frame.go:284-311 | one pass acts as the next frame of the input, records it as handled and leaves exactly the frames after it |
| H2Stream.PassesStop | internal/dataplane/h2_ws_frame.go:277-311 | with one pass more than frames the reader has stopped |
| H2Stream.Stream.ReadLoop | internal/dataplane/h2_ws_frame.go:277-311 | bytes in, the fold over the frames they contain out, until the reader stops: alignment is never lost |
| H2Stream.Stream.Interfere | internal/dataplane/h2_ws_frame.go:277-311 | between two passes of the writer exactly the fold over the frames handled meanwhile |
| H2Stream.Stream.Take | internal/dataplane/h2_ws_frame.go:198-199 | both windows go down by exactly the bytes taken, and nothing else changes |
| H2Stream.Stream.SendFrame | internal/dataplane/h2_ws_frame.go:189-207 | the frame is paid for and is on the wire as printed, or is lost |
| H2Laws.LimitIsLeast | internal/dataplane/h2_ws_frame.go:180-188 | the limit is the least of both credits and any announced maximum |
| H2Laws.FrameSentIs | internal/dataplane/h2_ws_frame.go:189-207 | the bytes of a DATA frame on the wire, and its price |
| H2Laws.SendingWithCredit | internal/dataplane/h2_ws_frame.go:180-210 | with credit one frame of as many bytes as allowed goes out, and the writer goes on with the rest |
| H2Laws.WaitingForCredit | internal/dataplane/h2_ws_frame.go:187-197 | without credit the writer waits on after a time-out, and gives up when the stream or its writing side is closed |
| H2Stream.FrameKeeps | internal/dataplane/h2_ws_frame.go:180-207 | a frame within the limits keeps both accounts, whether sent or lost |
| H2Stream.SendingDelivers | internal/dataplane/h2_ws_frame.go:163-212 | from any pass on, the payloads logged are the reported prefix, each within the limits of its moment |
| H2Stream.WritingDelivers | internal/dataplane/h2_ws_frame.go:163-212 | in every interleaving a call delivers the reported prefix of its bytes in printed DATA frames, loses nothing but the one frame of a failed connection, and keeps DATA bytes plus lost bytes plus credit equal to the initial window plus the updates handled |
| H2Stream.Stream.Write | internal/dataplane/h2_ws_frame.go:163-212 | the loop does just that, on the object, with the reader running in between |
| H2Stream.PassKeeps | internal/dataplane/h2_ws_frame.go:277-311 | one pass of the reader keeps all accounts |
| H2Stream.DataFrameReadsBack | internal/dataplane/h2_ws_frame.go:180-206 | every frame a call logged stands on the wire, and reads back exactly when below 2^24 bytes, which any announced legal maximum guarantees |
| H2Stream.OverspentIff | internal/dataplane/h2_ws_frame.go:92-123 | what was sent or lost exceeds 65535 plus the updates handled exactly when the connection credit is zero |
| H2Stream.OverspendingRun | internal/dataplane/h2_ws_frame.go:92-123 | from a fresh stream, one call of 65536 bytes after the response headers reaches that state |
| H2Stream.OversizedRun | internal/dataplane/h2_ws_frame.go:180-206 | from a fresh stream, after two updates of 2^24 and no maximum, one call writes a frame that does not read back |
| Strings.SortedListUnique | internal/app/http3.go:1708-1718 | a set of hosts has one sorted list |
| Strings.LessAtDifference | internal/app/http3.go:1708-1718 | the order is that of the first differing character; a beginning comes first |
| Strings.Sorted | internal/app/http3.go:1708-1718 | the list of the set's hosts in ascending order |
| Http3Routes.BuildRouteTable | internal/app/http3.go:1635-1684 | entries for exactly the hosts with one listener, sorted conflict lists of exactly the hosts with more, a default exactly when there is one listener in all |
| Http3Routes.TableIsOrderFree | internal/app/http3.go:1635-1684 | sites in any order and repetition give the same table |
| Http3Routes.ResolveIsMostSpecific | internal/app/http3.go:1491-1516 | a host is routed to b exactly when b alone claims the most specific undisputed pattern among the name, its wildcard and the catch-all |
| Http3Routes.RouteOfName | internal/app/http3.go:1491-1516 | a name of several labels goes to its sole claimant, failing one to that of the wildcard for its first label, failing that to that of the catch-all; an address has no wildcard |
| Http3Routes.ResolveDefault | internal/app/http3.go:1491-1499 | an empty host is routed exactly when there is one listener and its name is not empty, to it |
| Http3Sni.BuiltIsMapFor | internal/app/http3.go:1752-1773 | whatever the order of keys and listeners, the map holds the names of exactly one listener, each with its certificate, and the conflicts are the names of several |
| Http3Sni.MapIsDetermined | internal/app/http3.go:1752-1773 | two such maps are equal |
| Http3Sni.OrderFreeIffSeparable | internal/app/http3.go:1752-1773 | the map is the same for all orders and all certificates exactly when no listener is another one followed by NUL |
| Http3Sni.TwoOutcomes | internal/app/http3.go:1752-1773 | with such listeners one certificate already gives two different maps |
| Http3Sni.BuildSniMap | internal/app/http3.go:1752-1773 | the nested loops build the map of the order in which they visited, which with separable listeners is the map of every order |
| Http3Sni.EntryIsSole | internal/app/http3.go:1840-1849 | a single entry is served exactly when its name has a sole holder that the route accepts |
| Http3Sni.HoldsUnder | internal/app/http3.go:1754-1760 | the key of a listener and a name in the snapshot |
| Http3Sni.CertNamesOf | internal/app/http3.go:1828-1838 | the names tried: the name, the wildcard for its first label, the catch-all |
| Http3Sni.CertBelongsToRoute | internal/app/http3.go:1828-1849 | a name is served the certificate of the most specific name that has a sole holder, which is the listener of the route, or any listener if the route has none; and no certificate exactly when there is no such name |
| Http3Bodies.InvStep | internal/app/http3.go:320-390 | every step of registering and closing keeps the account of each body |
| Http3Bodies.RunInv | internal/app/http3.go:137-161 | and so in every state of every run |
| Http3Bodies.ClosedBodyStaysOut | internal/app/http3.go:137-161 | a body is cleaned up and closed at most once; once closed it is never registered, however registration races |
| Http3Bodies.RegisteredIff | internal/app/http3.go:137-161 | at every moment of every run a body is registered exactly when some registration of it has completed and no cleanup of it has run since |
| Http3Bodies.ActiveMoves | internal/app/http3.go:137-161 | a step changes the registration of no body but the one it registers or cleans up |
| Http3Bodies.RegistrationCompletes | internal/app/http3.go:137-152 | a registration goes through unless the body is closed |
| Http3Bodies.FirstCloseCleansUp | internal/app/http3.go:363-378 | the first close is the one that cleans up, later ones do nothing |
| Http3Bodies.CloseCompletes | internal/app/http3.go:380-393 | cleanup and the close of the upstream happen once each, in this order |
| Http3Listener.InvStep | internal/app/http3.go:1143-1264 | every step of `Spin` and of any number of `Shutdown` calls keeps the once-body, connection and socket invariants |
| Http3Listener.RunInv | internal/app/http3.go:1143-1264 | and so in every state of every run |
| Http3Listener.NoConnectionAfterShutdown | internal/app/http3.go:1188-1247 | once the first `Shutdown` body has finished the connection is nil forever |
| Http3Listener.ServedConnection | internal/app/http3.go:1218-1247 | in every run the connection of a serving `Spin` is the one set, and open, until `Shutdown` takes it; when the body of `Shutdown` is done it is closed |
| Http3Listener.SpinLeavesNoSocket | internal/app/http3.go:1143-1186 | when `Spin` has returned every socket it opened is closed, and stays so |
| Http3Listener.ShutdownLeavesNoSocket | internal/app/http3.go:1188-1216 | after a `Shutdown` that waited to its end no socket is open, even if `Spin` starts later |
| FixUri.RewriteIdempotent | internal/dataplane/fixuri_conn.go:75-99 | editing twice is editing once |
| FixUri.EditOfRequestLine | internal/dataplane/fixuri_conn.go:80-99 | after the first space a slash goes in exactly when the next byte is neither a slash nor a star |
| FixUri.NoEditOtherwise | internal/dataplane/fixuri_conn.go:75-88 | data without a space, ending at its first space, empty, or beginning like a TLS record is unchanged |
| FixUri.EditSeesEnoughIff | internal/dataplane/fixuri_conn.go:75-99 | the edit is that of the whole stream exactly when nothing needs editing or the first chunk reaches the byte after the first space |
| FixUri.FixURIConn.Read | internal/dataplane/fixuri_conn.go:59-100 | for any chunking and buffer sizes, delivered bytes, leftover and unread bytes are the stream with its first chunk edited; the first network read fixes that chunk for good; each call takes exactly one network read or the leftover, which is at most one byte and only when the buffer is full |
| FixUri.FixURIConn.EditInPlace | internal/dataplane/fixuri_conn.go:75-99 | the caller's buffer and the leftover hold exactly the edited chunk |
| FixUri.FixURIHertzConn.Grow | internal/dataplane/fixuri_hertz_conn.go:58-64 | one read below goes to the end of the buffer, and the first chunk is settled by the first such read |
| FixUri.FixURIHertzConn.Read | internal/dataplane/fixuri_hertz_conn.go:27-34 | the caller gets buffered bytes, or else one read of the stream below; consumed, buffered, left-over and unread bytes are the edited stream, whose first chunk never changes again |
| FixUri.FixURIHertzConn.Peek | internal/dataplane/fixuri_hertz_conn.go:57-72 | shows the next n bytes and consumes none; it fails only with the error of its last network read, and only with fewer buffered |
| FixUri.FixURIHertzConn.Skip | internal/dataplane/fixuri_hertz_conn.go:74-82 | consumes exactly n bytes, or nothing on failure |
| FixUri.FixURIHertzConn.ReadByte | internal/dataplane/fixuri_hertz_conn.go:92-101 | consumes exactly the byte it returns, or nothing on failure |
| FixUri.FixURIHertzConn.ReadBinary | internal/dataplane/fixuri_hertz_conn.go:103-112 | consumes exactly the n bytes it returns, or nothing on failure |
| FixUri.FixURIHertzConn.WriteBinary | internal/dataplane/fixuri_hertz_conn.go:121-123 | accepts all bytes into the buffer |
| FixUri.FixURIHertzConn.Flush | internal/dataplane/fixuri_hertz_conn.go:125-134 | the whole buffer goes to the wire, or it stays whole with an error; wire and buffer are then the accepted bytes in order exactly when nothing of it went out |
| FixUri.FixURIHertzConn.Write | internal/dataplane/fixuri_hertz_conn.go:36-41 | the buffer goes to the wire first, then the bytes, and without error all of both; a failed flush accepts nothing; wire and buffer are the accepted bytes in call order unless that flush went part-way |
| QueryCache.NamespaceShape | internal/cache/query_cache.go:64-69 | a namespace holds a separator only if it begins with one |
| QueryCache.NamespaceIs | internal/cache/query_cache.go:64-69 | what stands before the first colon or bar is the namespace, and the whole key if there is none or it comes first |
| QueryCache.ForeignNamespaceExtends | internal/cache/query_cache.go:202-221 | a key that begins with a namespace but is of another belongs to a longer one |
| QueryCache.AddKeyPartitions | internal/cache/query_cache.go:71-82 | indexing a key keeps the index the partition of the keys by namespace |
| QueryCache.RemoveKeyPartitions | internal/cache/query_cache.go:84-95 | so does removing one, without leaving an empty class |
| QueryCache.RemoveClassPartitions | internal/cache/query_cache.go:208-214 | so does removing a whole class |
| QueryCache.IndexEqualsScanIff | internal/cache/query_cache.go:202-221 | removing a live namespace is the prefix scan exactly when no other live namespace begins with it |
| QueryCache.StampIsIdentity | internal/cache/query_cache.go:129-135 | whatever was called since an entry was read, an equal stamp means the same entry and a replacement has another |
| QueryCache.EvolvesOn | internal/cache/query_cache.go:97-112 | what any two calls may do, one after the other, any call may do: stored entries stay the same objects or carry newer stamps |
| QueryCache.QueryCache.StoreLocked | internal/cache/query_cache.go:97-112 | replaced if present, stored if there is room or room after removing the expired, dropped otherwise; never more than the maximum |
| QueryCache.SetThenGet | internal/cache/query_cache.go:97-112 | a value set is there afterwards exactly when its key was, or there was room, or an expired entry makes room; no other live entry changes |
| QueryCache.QueryCache.SweepLocked | internal/cache/query_cache.go:242-262 | exactly the expired entries go, index included |
| QueryCache.QueryCache.Get | internal/cache/query_cache.go:114-140 | the unexpired value under the key; an expired entry is removed |
| QueryCache.QueryCache.ExpireIfCurrent | internal/cache/query_cache.go:129-135 | after any calls in between, the second lock removes the very entry that was read, if it is still there, and never its replacement |
| QueryCache.QueryCache.SetWithTTL | internal/cache/query_cache.go:168-184 | stores a new object with the given lifetime or the default one; an oversized key is ignored |
| QueryCache.QueryCache.Set | internal/cache/query_cache.go:152-166 | stores a new object with the cache's lifetime |
| QueryCache.QueryCache.Invalidate | internal/cache/query_cache.go:187-195 | removes exactly that key |
| QueryCache.QueryCache.InvalidatePrefix | internal/cache/query_cache.go:202-221 | exactly the class of a live namespace, else exactly the keys that begin with the prefix |
| QueryCache.QueryCache.InvalidateAll | internal/cache/query_cache.go:224-232 | nothing stays, index included |
| Caa.AncestorsAreParents | internal/acme/caa.go:127-142 | the names looked up are the domain and whatever follows one of its dots |
| Caa.JoinedTail | internal/acme/caa.go:132-139 | joining the labels from number i on gives the parent of that depth |
| Caa.CaaLookupNames | internal/acme/caa.go:127-142 | the domain and its parents, nearest first, without empty ones |
| Caa.NearestIsUnique | internal/acme/caa.go:103-118 | at most one answer is the nearest record set or the first failure |
| Caa.LookupRecordSet | internal/acme/caa.go:103-118 | the record set of the nearest name that has one, unless a nearer name cannot be looked up |
| Caa.RejectCriticalUnknown | internal/acme/caa.go:173-186 | rejected exactly when a critical record has an unknown tag |
| Caa.IssueRecords | internal/acme/caa.go:204-223 | the applicable records: issuewild for a wildcard if there are any, else issue |
| Caa.AuthorizeIssuers | internal/acme/caa.go:188-202 | authorised exactly when no record is applicable or an applicable one names an allowed issuer |
| Caa.AuthorizesByTag | internal/acme/caa.go:188-223 | for a wildcard the issuewild records decide if there are any; otherwise the issue records do, and without any everyone may issue |
| Caa.NormalizeAllowedIssuers | internal/acme/caa.go:144-161 | exactly the non-empty normalised issuers of all comma-separated entries, each once |
| Caa.CheckCAAIssuance | internal/acme/caa.go:68-101 | the decision is the rule of RFC 8659 over the nearest record set, with the configuration errors in their order |
| CaaSpelling.DecisionForName | internal/acme/caa.go:68-126 | for every name in any case, between blanks, with or without a final dot: the first thing that is missing, or the ruling of the nearest record set among the name and its parents, as a wildcard exactly when the name is marked as one |
| CaaSpelling.DomainSpelling | internal/acme/caa.go:120-126 | name and wildcard mark are found in every spelling |
| CaaSpelling.LoneStar | internal/acme/caa.go:120-126 | a lone star is a name, and with a final dot it is a wildcard without one |
| CaaSpelling.NoDomain | internal/acme/caa.go:120-126 | blanks, a dot, or a wildcard mark alone are no domain |
| CaaSpelling.LookupsOf | internal/acme/caa.go:127-142 | the names looked up for a plain name are the name and what follows each of its dots |
| CaaSpelling.AncestorsInOrder | internal/acme/caa.go:127-142 | in this order: the name, then those of the name without its first label |
| CaaSpelling.IssuerSpelling | internal/acme/caa.go:163-171 | an issuer is found in any case, between blanks and quotes, with a final dot, and before parameters |
| CaaSpelling.NamesNobody | internal/acme/caa.go:163-171 | blanks or parameters alone name no issuer |
| CaaSpelling.SplitInParts | internal/acme/caa.go:144-148 | lists are cut at every separator |
| CaaSpelling.TagSpelling | internal/acme/caa.go:175-175 | a tag is read in any case and between blanks |
| CaaSpelling.CriticalAndKnown | internal/acme/caa.go:173-186 | the top bit makes a record critical, and five tags are known |
| Caa.NearestAgree | internal/acme/caa.go:103-118 | resolvers that agree up to order and repetition of records give the same nearest name and record set |
| Caa.DecisionIsOrderFree | internal/acme/caa.go:68-101 | the decision does not depend on the order or repetition of records or issuers, whichever tags are known |
| Caa.EmptyIssuerForbids | internal/acme/caa.go:188-202 | applicable records that all name nobody forbid issuance |
| Caa.LenientIff | internal/acme/caa.go:68-101 | the decision and the one with the three tags of RFC 8659 differ exactly when the nearest set would otherwise allow, has no critical tag outside the five, and has a critical accounturi or validationmethods record; then the program allows |
| Caa.LenientWitness | internal/acme/caa.go:68-101 | with one critical accounturi record the program decides to allow and the standard to refuse |

## Left out

- AhoCorasick.Builder.Build: states what a first call does. A second call, or adding a pattern afterwards, would work on a table that is no trie any more.
- AhoCorasick.Builder.AddPattern: requires what 32-bit state and pattern numbers can hold.
- AhoCorasick.Expand: the row loop of `Build` is a method of its own here, and the table is a value that is updated element by element.
- CacheProtocol.EveryStateIsSafe: access times do not change between the sorting and the removals of one eviction, and the clock stands still within one critical section.
- CacheProtocol.LateFillStoresNothing: holds for fewer than 2^64 clears and purges since the read; the 64-bit generation wraps there.
- CacheProtocol.LookupIsFenced: holds for runs with fewer than 2^64 clears and purges.
- ResponseCache.ResponseCache.SetIfGenerationLocked: copying of body and headers is not modelled; values do not alias here.
- ResponseCache.ResponseCache.Lookup: returns the entry by value, with the access time it had.
- H2Stream.Stream.Write: the reader runs between the passes of the writer and handles whole frames there; how a wait ends is a choice of the surroundings; a frame the connection fails to write counts as lost whole.
- H2Stream.ApplyKeeps: credits are unbounded integers; the source's do not overflow before 2^63 bytes of credit.
- Http3Listener.RunInv: one call of `Spin`, as the server makes it, and any number of `Shutdown` calls.
- Http3Routes.ResolveIsMostSpecific: splitting of host lists, host normalisation and the recognition of IP addresses are parameters; the last is asked never to take a name that begins with `*.` for an address.
- FixUri.FixURIConn.Read: after the planned reads of the network every read fails; a plan may be as long as one likes.
- CaaSpelling.DecisionForName: excludes the name `*`, which a final dot turns into a wildcard mark without a name (`CaaSpelling.LoneStar`).
- Caa.CheckCAAIssuance: text is ASCII, so case folding and trimming are those of ASCII; the resolver is a parameter, and the DNS exchange and record decoding are not part of this model.
- Nil receivers, which every method of the source answers with a zero value.
- `h2cExtConnectStream.Read`, which puts left-over bytes behind later chunks, `CloseWrite`, dialing, HPACK decoding (a parameter).
- Cache keys (SHA-256), the cleaner goroutines, header storage, and the hit statistics beyond the two counters.
- `Malloc` and `Release` of the buffering connection, whose slices alias the buffer; timeouts and TLS state.
- The listener plans, Alt-Svc texts, default and self-signed certificates, request cancellation and trailers of the HTTP/3 server; snapshot reload and reconciliation.
- TLS, QUIC, sockets and timers.
- Everything else of the repository: administration, storage, user interface, configuration, ACME network exchange.
