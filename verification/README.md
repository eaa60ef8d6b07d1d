# Verified model of the LP2LN peer-to-peer node

This project models the stateful kernels of the Rust node (signal server, storage provider, uploading
client, HTTP front end, counter contract) in Dafny and proves what they keep over whole runs.
`dafny verify dfyconfig.toml` checks everything. Nothing was executed.

Objects whose methods change fields are classes here; each method is proved against a function on values,
and the theorems are about runs of those functions.

| file | kernel |
|---|---|
| `PeerSearch.dfy`, `SearchNetwork.dfy`, `SearchMemory.dfy`, `StrayAnswer.dfy` | hop-limited peer search: one server, then a network of servers joined in any way, what the search cache does for it, and a run in which the answer is lost |
| `Multipart.dfy` | the hand-written `multipart/form-data` scanner |
| `RequestLimiter.dfy`, `OverlappingCalls.dfy` | fixed-window request counter and timed block list; the counter under overlapping calls |
| `StorageProvider.dfy`, `FileAccess.dfy`, `FilePipeline.dfy`, `Codec.dfy` | blob directory, storage table, capacity, who may upload and get a file, the way of a file through four handlers |
| `UploadQuota.dfy` | the client's token table, `upload_file`, `upload_directory` |
| `Framing.dfy`, `Senders.dfy` | length-prefixed messages; senders sharing a connection |
| `StunIntroductions.dfy`, `WaitingPackets.dfy` | introductions between peers, at the granularity of handler suspension points; what becomes of waiting packets |
| `TokenLedger.dfy` | the counter contract's balances in wrapping `u64` arithmetic |
| `Basics.dfy`, `MapSums.dfy`, `KeyOrder.dfy` | shared values, sums over maps, the key order of the database |

Clock readings, I/O outcomes, random nonces, token signatures and the verdict on suspicious requests are
parameters, and so is the check a receiver makes of a message body (UTF-8, JSON, signature). gzip, the cipher
and the JSON envelope are arbitrary functions obeying the round-trip laws of `Codec.Lawful`;
`Codec.SmallCodecIsLawful` shows these laws consistent, with a file as long as one likes that packs into two bytes.

## What turned out false, and when exactly it holds

- **The scanner** returns an encoded part list exactly when no header block contains a blank line or ends in a
  line end, no content contains the delimiter, and no blank line follows the closing delimiter
  (`Multipart.RoundTrip`). The line end before a delimiter stays in the content.
- **The limiter** lets 2 * `max_requests_per_minute` calls through in a closed minute, not `max`: that bound is proved and
  reached for every limit (`RequestLimiter.AtMostTwice`, `RequestLimiter.TwiceIsReached`); it is one less if the two clock
  readings of `check_rate_limit` coincide (`RequestLimiter.SharpBound`). `max` itself holds in every minute in which no window
  restarts after a call of its key has passed (`RequestLimiter.WithinLimit`), and a restart can push some minute over `max`
  if and only if a call of its key passed in the 60 seconds before it (`RequestLimiter.RestartOvershootsExactly`). When calls of
  one key overlap, a check can date its new window before the decision of a call that has already passed. As long as none does,
  twice the limit holds; the first that does can be continued beyond it, for every positive limit, if readings lie at most 60
  seconds apart (`OverlappingCalls.AtMostTwice`, `OverlappingCalls.BackdatingExceedsExactly`). Three times the limit less one then is the exact bound while the two readings
  of a check lie at most 30 seconds apart (`OverlappingCalls.FewerThanThreeTimes`, `OverlappingCalls.ThreeTimesLessOneIsReached`).
- **The search** reports "forwarding response" when it finds a target whose initiator it does not see, but then it sends no
  response; it forwards the request (`PeerSearch.AnswersExactly`). A server sees the initiator on every search
  that comes over an open connection, because `handle_message` first names that connection after the packet's `peer_key`, which a
  forwarded search sets to the initiator. So a search so delivered is answered, on a connection that carries the initiator's
  key, if and only if the server knows the target (`SearchNetwork.DeliveryAnswersExactly`). The code is followed, not its log
  messages. In `handle_search_response` the last node of a path is the answering server, although the comment there calls it
  the initiator.
- **The answer** need not come back the way the search came. It goes to the first connection that carries the initiator's key,
  which is the one the search came by if and only if no earlier one carries that key (`SearchNetwork.AnswersBackExactly`). So the
  answer of a server next door goes back over that connection and on to the client's connection exactly when that holds at both
  servers (`SearchNetwork.NeighbourIsFound`), and a client that searched through another server before can be left without any
  answer (`StrayAnswer.AnswerGoesAstray`). A relay between two servers never hands an answer to the connection the search came
  by while that carries the initiator's key, since it looks for the previous server's key (`SearchNetwork.RelayLeavesTheWay`).
- **Attachment** is not what an answer proves: a server "finds" whoever last searched over a connection, attached or not, until
  another packet renames that connection (`SearchNetwork.SearchersAreFound`).
- **A get by hash** can send another file, since the table is searched by owner, file name and hash alike: it returns the
  file if and only if no matching row stands in front of it in key order (`FilePipeline.GetReturnsFileExactly`), and a
  public upload by anyone can put one there (`FilePipeline.StrangerShadows`). Delete, move and access change check the owner of the
  row found first and act on the row of the hash, so such a row also takes the right to delete the file from its owner
  (`FilePipeline.StrangerDeletes`); without one the owner alone has it (`FilePipeline.OwnersDelete`).
- **The capacity bound** fails for archives that the provider unpacks, since only the packed size is checked
  (`StorageProvider.ArchiveOverflows`, `StorageProvider.OverflowingArchiveExists`); an accepted upload keeps it exactly when
  what it writes fits beside what it does not overwrite (`StorageProvider.UploadFitsExactly`).
- **The ledger** loses 2^64 tokens with each overflowing transfer and is otherwise conserved
  (`TokenLedger.Conservation`, `TokenLedger.TokensCanVanish`).
- **The waiting branch** of the STUN handler asks whether the target has a tunnel under the target's own key. Without
  accepting packets somebody is introduced if and only if a waiting packet is decided after its target has filed an address
  for itself (`StunIntroductions.WaitingPeersMeetExactly`), so never if no peer names itself
  (`StunIntroductions.WaitingPeersNeverMeet`). Accepting packets do introduce (`StunIntroductions.AcceptingPeersMeet`).
- **Frames** come back unchanged exactly when every length is below 2^32, because the length is cast with `as u32`
  (`Framing.RoundTrip`).

## Model

| member | source | states |
|---|---|---|
| `PeerSearch.PeerSearchManager.FindPeer` | src/signal/peer_search.rs:121-123 | the scan over connections returns the first with the key, or none when no connection has it |
| `PeerSearch.PeerSearchManager.SetPeerKey` | src/signal/peer.rs:170-172 | the connection a packet came over, and no other, carries the key of that packet |
| `PeerSearch.PeerSearchManager.HandleMessage` | src/signal/server.rs:541-612 | a search packet first names its connection after the initiator and then searches the lists so changed |
| `PeerSearch.PeerSearchManager.HandleSearchRequest` | src/signal/peer_search.rs:58-235 | cache after, and packets sent by, any search request: answer from a live cache entry, answer from the scan, or forward to every connection with one hop fewer and this server appended to the path |
| `PeerSearch.PeerSearchManager.HandleSearchResponse` | src/signal/peer_search.rs:237-343 | whom a response is handed to, passed on to (the first connected server that accepts it), or lost; the index underflow is an outcome of its own |
| `PeerSearch.UnderflowsExactly` | src/signal/peer_search.rs:278-279 | `my_index - 1` underflows if and only if the path is longer than one node and this server leads it |
| `PeerSearch.RelaysExactly` | src/signal/peer_search.rs:237-343 | by where this server first stands on the path: at its end the first connection with the initiator's key gets the response, at its front the index underflows, between the first connection with the previous node's key gets it, or else the first accepting server; lost exactly when there is none |
| `PeerSearch.IgnoredExactly` | src/signal/peer_search.rs:244-340 | a response is ignored if and only if this server is not on its path |
| `PeerSearch.HopDescends` | src/signal/peer_search.rs:244-279 | the predecessor of a node's first occurrence first occurs strictly earlier |
| `PeerSearch.RouteReturns` | src/signal/peer_search.rs:244-303 | from any node of any path the way back visits no node twice and reaches the initiator in fewer than path-length hops, even if the search visited servers repeatedly |
| `PeerSearch.RelaysSpellRoute` | src/signal/peer_search.rs:276-332 | along any chain of relays, by hand-over or pass-on, the servers addressed are the nodes of that route in order, so none relays twice and the initiator is addressed after fewer relays than the path has nodes |
| `SearchNetwork.DeliveryDescends` | src/signal/peer_search.rs:186-229 | each delivery strictly lowers the sum of 1 + d + ... + d^hops over requests under way, for any graph of out-degree at most d |
| `SearchNetwork.FloodTerminates` | src/peer/peer_api.rs:377-399 | n searches cost at most n(1 + d + d^2 + d^3) deliveries in every run on every server graph, cycles included |
| `SearchNetwork.DeliveryAnswersExactly` | src/signal/server.rs:541-604 | a search delivered over an open connection is answered, on a connection with the initiator's key, if and only if the server knows the target from a live entry or another connection; otherwise, while hops are left, each connected server gets the request with one hop fewer and this server on its path, and nothing else changes |
| `SearchNetwork.AnswersBackExactly` | src/signal/peer_search.rs:157-175 | the answer goes back over the connection the search came by if and only if no earlier connection of the server carries the initiator's key |
| `SearchNetwork.NeighbourIsFound` | src/signal/peer_search.rs:125-178 | a server that knows the target and got the search from the client's own server: its answer goes back over that connection and is handed to the client's connection if and only if at neither server an earlier connection carries the client's key |
| `StrayAnswer.AnswerGoesAstray` | src/signal/peer_search.rs:157-175 | a run from the initial state in which the target is known next door, the answer goes to another server that ignores it, and no server that receives it relays it |
| `SearchNetwork.RelayLeavesTheWay` | src/signal/peer_search.rs:278-332 | a relay between two servers never uses the connection that carries the initiator's key; it needs another with the previous server's own key, or else uses the first accepting server it opened a connection to |
| `SearchNetwork.SearchersAreFound` | src/signal/server.rs:541 | after a search by A has come to a server over a connection, and as long as nothing renames that connection, that server answers any search for A over another open connection, in every run |
| `SearchNetwork.FloodReaches` | src/signal/peer_search.rs:219-229 | every walk of connected servers that do not know the target, up to the hop limit, is followed to its end by some order of deliveries, with the walk as the request's path |
| `SearchNetwork.RequestPaths` | src/signal/peer_search.rs:193-206 | in every reachable state each request has path length plus hops left equal to 4, the initiator first, and otherwise a walk along real connections ending at the forwarder |
| `SearchNetwork.AnswerProvenance` | src/signal/peer_search.rs:125-141 | in every reachable state each response names the peer sought as found, ends its path at the answering server with that server's address, starts it at the initiator, and was made while a connection carried the initiator's key, and then or less than five minutes before one carried the target's |
| `SearchNetwork.RelaysNeverUnderflow` | src/signal/peer_search.rs:278-279 | no server of the network underflows on any response of any run when clients and servers have distinct keys |
| `SearchNetwork.CacheIsTransparent` | src/signal/peer_search.rs:68-117 | in every reachable state, with both keys on connections, the cache hit sends the same recipient the same response as the scan |
| `SearchMemory.AnsweredFromMemoryExactly` | src/signal/peer_search.rs:68-154 | in every run a search over an open connection is answered if and only if it is for the initiator itself, another connection carries the target's key, or the server last found the target on a connection less than 300000 ms ago |
| `SearchMemory.FoundForFiveMinutes` | src/signal/peer_search.rs:146-154 | after a delivery that finds the target, with no valid entry, and ends at time t: until it is found again, and with no other connection carrying its key, every later search for it is answered if and only if it comes before t + 300000 ms |
| `Multipart.FindFrom` | src/http/http_api.rs:640-646 | the search loop returns the first occurrence at or after the cursor, or none if there is none |
| `Multipart.NextPart` | src/http/http_api.rs:639-692 | one turn of the scanner: delimiter, two bytes, first blank line, next delimiter or end of body |
| `Multipart.ScanParts` | src/http/http_api.rs:636-692 | the loop emits exactly the parts the value-level scan defines, for every body and boundary, with all slices in bounds |
| `Multipart.ScanIsWellCut` | src/http/http_api.rs:637-692 | on arbitrary bytes: spans in order and disjoint, cursor advances by at least delimiter length + 6, header blocks end at their first blank line, contents hold no delimiter and stop only at one or at the end |
| `Multipart.PartCount` | src/http/http_api.rs:638-692 | number of parts times (delimiter length + 6) never exceeds the body |
| `Multipart.ScanEncoded` | src/http/http_api.rs:636-692 | scanning the encoding of encodable parts gives those parts in order, plus nothing, if and only if no blank line follows the closing delimiter |
| `Multipart.ScannedIsEncodable` | src/http/http_api.rs:636-692 | no scan of any body ever yields a part that is not encodable |
| `Multipart.RoundTrip` | src/http/http_api.rs:621-692 | encode then scan is the identity (up to the kept line ends) if and only if every part is encodable and the epilogue is clean, for every boundary without CR or LF |
| `RequestLimiter.SecurityManager.CheckRateLimit` | src/http/security.rs:177-192 | verdict and counter of the fixed window, with its two clock readings kept apart |
| `RequestLimiter.SecurityManager.IsIpBlocked` | src/http/security.rs:167-175 | blocked while younger than the block duration; an expired entry is dropped |
| `RequestLimiter.SecurityManager.BlockIp` | src/http/security.rs:163-165 | dates the block of one key and touches nothing else |
| `RequestLimiter.SecurityManager.CheckRequest` | src/http/security.rs:87-130 | verdict and new state in the order block, rate, size, URI, headers, query, suspicion |
| `RequestLimiter.AtMostTwice` | src/http/security.rs:177-192 | in every history of calls that do not overlap and every closed 60-second interval at most twice the limit of calls of one key (twice one, for a limit of 0) pass the rate check, and at most as many are admitted |
| `RequestLimiter.SharpBound` | src/http/security.rs:177-192 | twice the limit minus one when, besides, the two readings of each call coincide |
| `RequestLimiter.TwiceIsReached` | src/http/security.rs:177-192 | for every positive limit a history admits exactly twice the limit within 60 seconds |
| `RequestLimiter.WithinLimit` | src/http/security.rs:177-192 | the limit itself holds in every closed 60-second interval in which no window of the key restarts after a call of the key passed there |
| `RequestLimiter.RestartOvershootsExactly` | src/http/security.rs:181-184 | after an admitted restart made at one instant, some continuation within the new window puts more than the limit into a closed minute around it if and only if a call of the key passed in the 60 seconds before |
| `OverlappingCalls.AtMostTwice` | src/http/security.rs:177-192 | overlapping checks of one key, decided in the order of its map lock: at most twice the limit passes in any closed 60 seconds as long as no restart is dated before the decision of an earlier check that passed |
| `OverlappingCalls.BackdatingExceedsExactly` | src/http/security.rs:178-184 | for every positive limit and readings at most 60 seconds apart: checks of which at most the last is a restart so dated can be continued, without another one, beyond twice the limit in 60 seconds if and only if the last is |
| `OverlappingCalls.FewerThanThreeTimes` | src/http/security.rs:177-192 | readings at most 30 seconds apart: at most three times the limit less one passes in any closed 60 seconds |
| `OverlappingCalls.ThreeTimesLessOneIsReached` | src/http/security.rs:177-192 | for every positive limit, overlapping checks with readings at most two nanoseconds apart that reach that bound |
| `OverlappingCalls.RejectedOnlyAboveLimit` | src/http/security.rs:186-188 | overlapping or not, every rejection is witnessed by a closed 60-second interval with more checks of the key than the limit |
| `RequestLimiter.RejectedOnlyAboveLimit` | src/http/security.rs:186-188 | in every history of calls that do not overlap, every rate rejection is witnessed by a closed 60-second interval with more than the limit of calls, so a key within it is never rejected |
| `RequestLimiter.BlockedCallsLeaveNoTrace` | src/http/security.rs:89-91 | deleting all blocked calls from a history leaves its state unchanged |
| `RequestLimiter.AdmittedExactly` | src/http/security.rs:97-127 | past the block and rate checks a call of any history is admitted if and only if its size, URI, headers and query keep their bounds and it is not suspicious, and each of the five errors is given exactly when its check is the first to fail |
| `RequestLimiter.SuspicionBlocks` | src/http/security.rs:123-127 | a suspicious call that came as far as that check blocks every later call of its key for exactly the block duration, if no other one comes between |
| `RequestLimiter.BlockedExactly` | src/http/security.rs:123-127 | in every history of calls that do not overlap, a call is rejected as blocked if and only if an earlier suspicious request of its key is less than the block duration old |
| `StorageProvider.Provider.GetStorageSize` | src/db/storage.rs:148-168 | the directory loop returns the sum of all blob sizes |
| `StorageProvider.Provider.GetStorageFreeSpace` | src/db/storage.rs:170-174 | storage size minus used bytes in `u64` |
| `StorageProvider.Provider.HandleFileUpload` | src/manager/file_handler.rs:18-140 | first failed check, or the blob written and the row recorded; a refusal changes nothing |
| `StorageProvider.Provider.SearchFirst` | src/db/storage.rs:108-135 | the row with the least key among those whose owner, hash or file name is the identifier, or none if there is none |
| `StorageProvider.SearchFindsExactly` | src/db/storage.rs:119-132 | nothing is found exactly when no row has the identifier as owner, hash or file name, and what is found is such a row with no such row before it |
| `KeyOrder.FirstDifferenceDecides` | src/db/storage.rs:119 | the order in which the table is read: the first difference of two keys decides, and a key comes before its extensions |
| `StorageProvider.Provider.CheckOwner` | src/manager/file_handler.rs:465-489 | the shared owner and token checks of delete, move and access change |
| `StorageProvider.Provider.HandleFileDelete` | src/manager/file_handler.rs:460-503 | blob and row of the hash removed together, or nothing changed |
| `StorageProvider.Provider.HandleFileMove` | src/manager/file_handler.rs:527-561 | only the file name of the row changes, or nothing |
| `StorageProvider.Provider.HandleFileAccessChange` | src/manager/file_handler.rs:386-419 | only the public flag of the row changes, or nothing |
| `StorageProvider.Provider.HandleFileGet` | src/manager/file_handler.rs:214-285 | nothing, a token refusal, the missing-file panic, or the blob with its row's flags |
| `StorageProvider.Provider.HandleFileSaved` | src/manager/file_handler.rs:186-212 | the row made of the report, with its token as the uploading token, replaces the row of its hash |
| `FileAccess.UploadAcceptedExactly` | src/manager/file_handler.rs:18-99 | after any traffic an upload is accepted if and only if it is public or shows the token its peer was given last, signed and large enough, fits as sent, and unpacks if it is to be unpacked; each refusal names the first check to fail |
| `FileAccess.GetIsRefusedExactly` | src/manager/file_handler.rs:214-285 | any traffic, an accepted upload, any traffic that neither touches nor shadows the file, a get: refused as not valid if and only if the file was uploaded privately, is private by the last accepted access change, and the get shows another token; otherwise the file as uploaded under its last accepted name |
| `FileAccess.ReportedIsRefusedExactly` | src/manager/file_handler.rs:186-246 | a get of a reported file is refused if and only if it is private and another token is shown, panics if the file is not here, and otherwise sends it with the reported fields |
| `StorageProvider.RunAgrees` | src/manager/file_handler.rs:84-140 | over every run of accepted and refused packets each row of this node has a blob of exactly its size under its hash |
| `StorageProvider.ReportAgreesExactly` | src/manager/file_handler.rs:186-205 | a saved-file report keeps the agreement if and only if it names another provider or the blob is there in that size |
| `StorageProvider.GetFindsBlob` | src/manager/file_handler.rs:249-253 | in no reachable state does a get of a row of this node open a missing file |
| `StorageProvider.DeleteUndoesUpload` | src/manager/file_handler.rs:491-503 | an accepted delete of a freshly uploaded file restores directory and table exactly |
| `StorageProvider.UploadFitsExactly` | src/manager/file_handler.rs:63-99 | an accepted upload keeps the capacity if and only if written minus replaced bytes fit; stored verbatim it always does |
| `StorageProvider.RunFits` | src/db/storage.rs:170-174 | over every run of deletes and uploads that unpack to no more than was checked, used bytes stay within the size and the subtraction never underflows |
| `StorageProvider.ArchiveOverflows` | src/manager/file_handler.rs:69-99 | any public archive that fits packed but not unpacked is accepted by an empty provider, exceeds the size and makes the subtraction wrap |
| `StorageProvider.OverflowingArchiveExists` | src/manager/file_handler.rs:69-99 | for every capacity of at least 2 bytes, lawful coding and a two-byte upload that is accepted and exceeds it |
| `FilePipeline.Receiver.HandleFileData` | src/manager/file_handler.rs:334-384 | the decoded file is stored under its name; a decoding failure leaves an empty file |
| `FilePipeline.DecodesExactly` | src/manager/file_handler.rs:349-373 | for each combination of flags what a received file decodes to, and each failure exactly when its step is the first to fail |
| `FilePipeline.RunKeeps` | src/manager/file_handler.rs:84-140 | traffic about other hashes, and moves and access changes of the file itself, leave blob and decoding flags alone |
| `FilePipeline.RunStaysInFront` | src/db/storage.rs:119-132 | as long as no packet gives a row with a smaller key the hash as its owner or file name, no such row stands in front of the file |
| `FilePipeline.GetReturnsFileExactly` | src/manager/file_handler.rs:214-285 | a get by hash sends the kept file if and only if no matching row has a smaller key |
| `FilePipeline.StrangerShadows` | src/db/storage.rs:122-124 | an accepted public upload under a smaller hash, with the file's hash as its name, is what every later get of the file sends |
| `FilePipeline.OwnersDelete` | src/manager/file_handler.rs:460-503 | without a matching row in front, a delete removes blob and row if and only if it comes from the row's owner with a valid token, and otherwise changes nothing |
| `FilePipeline.StrangerDeletes` | src/manager/file_handler.rs:465-503 | after an accepted public upload that stands in front, the owner is refused as no owner and the uploader's delete removes the file |
| `FilePipeline.KeptDecodes` | src/manager/file_handler.rs:349-373 | what a get sends of a kept file decodes to the original, or to its gzip stream when neither flag was set |
| `FilePipeline.EndToEnd` | src/peer/peer_api.rs:192-222 | from an empty provider: any traffic, upload, any traffic that does not touch the file, get, receive returns the original for (encrypt, unpack) = (no, yes) and (yes, no), and gzip of it for (no, no), as long as no packet puts a row with the hash as its owner or name in front of the file |
| `FilePipeline.EnvelopeIsRefused` | src/manager/file_handler.rs:84-91 | (yes, yes) is refused with the store untouched |
| `UploadQuota.PeerApi.AddToken` | src/db/tokens.rs:8-30 | a new token starts with no used space |
| `UploadQuota.PeerApi.GetBestToken` | src/db/tokens.rs:63-89 | the scan returns this node's own row when it is large enough and not empty, and nothing otherwise |
| `UploadQuota.PeerApi.UpdateTokenUsedSpace` | src/db/storage.rs:237-258 | sets one row's used space, or fails without a row |
| `UploadQuota.PeerApi.GetTokenUsedSpace` | src/db/storage.rs:260-272 | a row's used space, 0 without a row |
| `UploadQuota.PeerApi.UploadFile` | src/peer/peer_api.rs:116-262 | first failing step in order, or success counted against the token; failures count nothing |
| `UploadQuota.PeerApi.UploadDirectory` | src/peer/peer_api.rs:534-590 | used space rises by exactly the sum of the files that succeeded; a path that is no directory, cannot be listed or holds no file is an error that counts nothing |
| `UploadQuota.UsedIsCounted` | src/peer/peer_api.rs:257-259 | since the last token the used space is the sum of all successful uploads, public ones included, modulo 2^64 |
| `UploadQuota.PrivateWithinToken` | src/peer/peer_api.rs:144-153 | below 2^64 bytes in all, that sum is exact and private bytes never exceed the token, whatever is uploaded publicly in between |
| `UploadQuota.QuotaHoldsExactly` | src/peer/peer_api.rs:144-153 | an accepted private upload is within the token if and only if the checked sum did not overflow |
| `UploadQuota.UploadSucceedsExactly` | src/peer/peer_api.rs:124-153 | after any tokens and uploads a readable file is uploaded if and only if the last own token is not empty and as large as the file, and the upload is public or its size and what was stored since that token, in 64 bits, are within it; otherwise the error is named |
| `UploadQuota.AccountIs` | src/db/tokens.rs:8-30 | a node has exactly its last own token, and has used what it stored since |
| `UploadQuota.OtherFailures` | src/peer/peer_api.rs:116-262 | a missing file fails first, and an I/O failure is reported exactly when everything else would have succeeded |
| `Framing.LengthBytesAreUnique` | src/connection.rs:260-268 | reading then writing the four length bytes is the identity |
| `Framing.MostSignificantFirst` | src/signal/peer.rs:64-65 | of two lengths the smaller has the smaller byte where their four bytes first differ |
| `Framing.Stream.SendData` | src/signal/peer.rs:63-90 | appends exactly one frame to what the receiver has not read |
| `Framing.Stream.ReadExact` | src/signal/peer.rs:96-116 | consumes exactly the bytes asked for, or fails when fewer are left |
| `Framing.Stream.ReceiveMessage` | src/signal/peer.rs:92-137 | removes exactly the front frame and returns its body, rejects a body the receiver does not accept, or fails on the length or on the body |
| `Framing.Stream.ReceiveAll` | src/signal/server.rs:385-403 | the receive loop returns the complete messages before the first rejected one, and leaves unread exactly what stands behind that one, or nothing |
| `Framing.RoundTrip` | src/connection.rs:146-167 | concatenated frames decode to the message list, with nothing left over, if and only if every length fits in 32 bits |
| `Framing.ReceivedExactly` | src/signal/server.rs:385-403 | the receive loop returns the messages sent if and only if every length fits in 32 bits and every body is accepted |
| `Framing.DecodePrefix` | src/connection.rs:254-277 | a stream cut anywhere decodes to exactly the messages whose frames are whole |
| `Senders.Interleaving` | src/signal/peer.rs:63-90 | in every interleaving of senders under the writer lock the receiver decodes the messages in lock order, except the one still being written, and each sender's messages in its own order |
| `StunIntroductions.SignalServer.RegisterTunnel` | src/signal/server.rs:539-541 | the sender is marked waiting, takes the packet's key, and its address is filed under the peer it names |
| `StunIntroductions.Peer.AddOpenTunnel` | src/signal/peer.rs:148-150 | the latest address for a key replaces the earlier one and nothing else |
| `StunIntroductions.SignalServer.DecideWait` | src/signal/server.rs:846-897 | connects with the first peer of that key if it has a tunnel under its own key, relays the packet otherwise |
| `StunIntroductions.SignalServer.DecideAccept` | src/signal/server.rs:898-916 | starts a connection with every peer of that key when both have tunnels for each other, and with nobody else |
| `StunIntroductions.SignalServer.SendPeerInfo` | src/signal/server.rs:1129-1175 | introduces with the subject's address for the recipient, or sends nothing without one |
| `StunIntroductions.SignalServer.ConnectFirst` | src/signal/server.rs:1066-1080 | first introduction to the second peer, which stops waiting |
| `StunIntroductions.SignalServer.ConnectSecond` | src/signal/server.rs:1081-1094 | introduction to the first peer after the pause |
| `StunIntroductions.IntroductionsAreCurrent` | src/signal/server.rs:1129-1175 | in every interleaving an introduction about a peer carries the address that peer had registered last for the recipient |
| `StunIntroductions.ConnectingStays` | src/signal/peer.rs:148-154 | a connection started with both tunnels open sends both introductions, since tunnels are never removed |
| `StunIntroductions.AcceptingPeersMeet` | src/signal/server.rs:898-916 | whenever two peers have each sent an accepting packet for the other and the server is idle, both have been introduced, however the handlers interleaved |
| `StunIntroductions.WaitingPeersMeetExactly` | src/signal/server.rs:846-897 | in a run without accepting packets that the server has worked off, an introduction was sent if and only if some waiting packet was decided when the first peer of its target's key had a tunnel under that key |
| `StunIntroductions.AcceptConnectsExactly` | src/signal/server.rs:898-916 | in every run, deciding an accepting packet connects its sender, once each and in list order, with exactly the peers of the key that have filed an address for the sender, if the sender has filed one for the key; it sends nothing and changes no peer |
| `StunIntroductions.KeyAndWaitingExactly` | src/signal/server.rs:536-541 | in every run, with keys changing or not, a peer is known under the key of its last packet, and waits if and only if no introduction step was for it since |
| `WaitingPackets.WaitIsPassedOnExactly` | src/signal/server.rs:846-897 | deciding a waiting packet for an attached peer sends it on to the first peer of the key, with its own sender and address, if and only if that peer has no tunnel under its own key, and otherwise connects the two |
| `WaitingPackets.RunRelaysExactly` | src/signal/server.rs:873-887 | the packets passed on in a run are exactly those, in order |
| `WaitingPackets.WaitsAreDecidedOnce` | src/signal/server.rs:846-897 | in every run each waiting packet received is decided exactly once or still undecided |
| `WaitingPackets.WaitReachesTarget` | src/signal/server.rs:873-887 | in every run the server has worked off, a peer that never named itself was sent each waiting packet for its key, if it is the first peer of that key |
| `StunIntroductions.WaitingPeersNeverMeet` | src/signal/server.rs:866-876 | without accepting packets and with no peer naming itself, no introduction is ever sent |
| `TokenLedger.Contract.RegisterUser` | contracts/counter/src/lib.rs:39-88 | registers a new id with the given balance, refuses a known id or an unparsable payload |
| `TokenLedger.Contract.TransferTokens` | contracts/counter/src/lib.rs:91-148 | moves the amount with wrapping `u64` arithmetic, or refuses for the first failing reason without change |
| `TokenLedger.Conservation` | contracts/counter/src/lib.rs:65-143 | over every run, total plus 2^64 per overflowing transfer equals what was registered |
| `TokenLedger.ConservationFromEmpty` | contracts/counter/src/lib.rs:65-143 | totals agree modulo 2^64, exactly if and only if no transfer overflowed, and surely while registered amounts stay below 2^64 |
| `TokenLedger.AccountsExactly` | contracts/counter/src/lib.rs:39-143 | after any calls an id has an account if and only if some call registered it; the account is the one first registered, with the balance registered plus what covered transfers brought and took, modulo 2^64 |
| `TokenLedger.ExactlyUnlessOverflow` | contracts/counter/src/lib.rs:134-136 | one call keeps the total if and only if it is not an overflowing transfer |
| `TokenLedger.TokensCanVanish` | contracts/counter/src/lib.rs:134-136 | a run that registers 2^64 tokens and ends with a total of 0 |
| `TokenLedger.OthersUntouched` | contracts/counter/src/lib.rs:134-136 | a call changes at most the balances of the two accounts it names |

## Left out

- Sockets, TLS, HTTP serving, STUN queries, hole punching, console, wallet, site, plugins, logging: I/O and user interface.
- UTF-8, JSON, bincode and packet signatures in detail: below framing messages are byte strings that the receiver accepts or
  rejects by an arbitrary check, above it they are values; the packet fields `nodes`, `uuid` and `signature` are not carried.
- I/O failures inside a handler (a disk or database error between writing a blob and recording its row, a socket
  error in the middle of a frame).
- `SignalServer::auto_send_packet`, which may bounce packets between servers, and loss or delay of responses on the way: the
  network's runs end where a response is sent; what each relay then does with it is stated relay by relay.
- Concurrent search handlers on one server: each search packet relabels its connection and is searched for in one step, with
  its two clock readings.
- Overlapping calls of the whole HTTP check: `RequestLimiter` runs calls one after another; only the counter is also treated
  under overlap (`OverlappingCalls`), not the block table.
- `RequestLimiter.SecurityManager.IsIpBlocked`: takes the removal of an expired block to return; the source removes while it
  still holds a reference into the same map, which the map library says may deadlock.
- What makes a request suspicious: the search for patterns in URI, query and header values is a parameter, its verdict.
- `handle_file_update`, groups, tags, token hashes, peer statistics and file caches.
- `update_token_free_space` on this node's own row, which would move the limit the quota is measured against.
- `UploadQuota.PeerApi.UploadFile`: uploads run one after another; two at once could both read the used space before either writes it.
- Peers that disconnect during STUN introductions; and, but for `StunIntroductions.KeyAndWaitingExactly`, peers that change their
  key between packets.
- `handle_update_file`'s splitter and the matching of form-field names in the upload handler.
- Contract state across calls: each call of the runtime starts a fresh instance; one instance is modelled, built in release
  mode, where `u64` arithmetic wraps instead of panicking.
