# PKT-Lightning-Wallet core, modelled in Dafny

This project models the core of the PKT Lightning wallet daemon as pure Dafny
functions and a few methods, with proved contracts. It covers:

- **The neutrino light-client chain service.** This covers the peer registry
  kept by the peer handler, the per-peer protocol handlers (version,
  fee-filter, addr and transaction inventory), the outbound address-selection
  policy, the compact-filter block scan, the best-block stamp, the header
  rollback, the inventory listeners, and the start/stop life cycle.
- **The wallet RPC layer.** This covers:
  - transaction creation and `sendfrom`, and their validation;
  - output construction;
  - `gettransaction` and `decoderawtransaction`;
  - the UTXO lock endpoints.
- **The daemon's small parsers.** These are the neutrino header-state
  assertion and the wallet file name.
- **The vote-winner index.** This is a bucket keyed by big-endian height and
  listed newest-first with a cursor.
- **The comparator-ordered map wrapper `tmap`.**
- **The chain registry and the chain-control fee setup.**
- **Static channel backups.** This is the extraction of channel backups from
  an RPC snapshot, in both of its copies.
- **The wallet unlocker service.** This covers seed generation, wallet
  initialisation and wallet unlock.

Every external component becomes a parameter: the header store, the address
manager, the ban manager, the connection manager, GCS filter matching, script
building, hash parsing, the wallet database and the seed cipher. Each Go
module maps to one Dafny module. Integer widths are modelled explicitly where
the code casts: `int32` wrap-around, `uint32` conversions and `uint64`
conversions.

Modules:

- **`Common`**: bytes, `Option`/`Result`, integer casts and sequence helpers.
- **`Hex`, `Decimal`**: the hex and decimal codecs the core relies on.
- **`PeerRegistry`, `PeerSession`, `KnownTxns`, `AddressPolicy`,
  `FilterScan`, `ChainService`**: neutrino/neutrino.go.
- **`TxRequest`, `TxDetails`**: apiv1/wallet/transaction.
- **`UtxoLock`**: apiv1/wallet/unspent/lock.
- **`LndConfig`**: the lnd/lnd.go parsers.
- **`VoteWinnerDb`**: the vote-winner index.
- **`TMap`**: btcutil/util/tmap.
- **`ChainRegistry`**: lnd/chainreg.
- **`ChanBackups`**: the two `extractChanBackups`.
- **`WalletUnlocker`**: lnd/walletunlocker.

Where the code's own comments or log messages say something other than what
the code does, the model follows the code:

- **Relaxed-mode switch.** The log messages of the peer-search loop
  (neutrino/neutrino.go:802-806) announce a switch back to fast search only
  when the sync peer is lost or peers run short. The code stores `false` on
  every tick spent in relaxed mode, so it leaves relaxed mode every time (see
  Findings).
- **Watch-list errors in the filter scan.** `buildFilterBlocksWatchList`
  returns an error value and `FilterBlocks` aborts when it is set, but the
  builder tests the wrong variable, so a script that cannot be built is
  never reported (see Findings).
- **Nil filters in the filter scan.** The doc comment of `FilterBlocks`
  (neutrino/neutrino.go:1635-1641) says blocks whose filters report nothing
  are skipped. The code skips a block whose filter comes back nil without an
  error or is empty, and fails only when every retry of the filter fetch
  errs.
- **The candidate filter's `tries` counter.** The comments at
  neutrino/neutrino.go:846 and 852 speak of "after we failed 10 times" and
  "after 20 failed tries". The counter is bumped before the checks, so the
  recency check applies to candidates 1 to 9 of a selection and the port
  check to candidates 1 to 19.
- **Address clamping.** The comment at neutrino/neutrino.go:477-479 speaks of
  timestamps 24 hours ahead. The code clamps anything more than ten minutes
  ahead.
- **Inventory listener lists.** `StopListenInvs` removes every copy of the
  channel. It reports success only when exactly one copy was there.

## Model

| member | source | states |
|---|---|---|
| PeerRegistry.InitialRegistry | neutrino/neutrino.go:1123-1128 | the peer handler starts with no peers and consistent group counts, and the first-peer signal still to send |
| PeerRegistry.HandleAddPeer | neutrino/neutrino.go:1266-1318 | a nil peer, shutdown, a banned address and a full registry (MaxPeers = 125) each reject with the source's reason and leave the state unchanged; otherwise the peer goes into the list for its kind, only its group's counter goes up by one, the first-peer signal fires exactly when it was pending, and the address manager is told "connected" exactly for a handshaken peer; the peer count never exceeds MaxPeers |
| PeerRegistry.HandleDonePeer | neutrino/neutrino.go:1322-1354 | a known peer leaves its own list only, and its group counter drops only for an outbound peer whose version was received; persistent peers get a reconnect and opportunistic ones a removal plus a new request; an unknown peer leaves the state as it was but still has its request removed |
| PeerRegistry.MembersInsert | neutrino/neutrino.go:1298-1303 | inserting a fresh peer grows its group's membership by exactly one and no other group's |
| PeerRegistry.MembersRemove | neutrino/neutrino.go:1329-1341 | removing a peer shrinks exactly its own group's membership by one |
| PeerRegistry.AddPreservesValid | neutrino/neutrino.go:1266-1318 | adding a fresh outbound peer that has announced its version keeps every group counter equal to the number of peers in that group, and an accepted add raises the count by one |
| PeerRegistry.DonePreservesValid | neutrino/neutrino.go:1322-1354 | removing a registered peer keeps the group counters consistent and lowers the count by one |
| PeerRegistry.DoneLeaksUnknownVersion | neutrino/neutrino.go:1329-1332 | a peer removed before its version arrived leaves its group's counter one higher than the group's membership |
| PeerRegistry.AddDoneRoundTripLeaks | neutrino/neutrino.go:1266-1354 | adding then removing a peer without a known version restores the peer lists but not its group's counter |
| PeerRegistry.AddDoneRoundTripRestores | neutrino/neutrino.go:1266-1354 | adding then removing an outbound peer whose version is known restores both lists and every group counter |
| PeerRegistry.FirstPeerSignalledOnce | neutrino/neutrino.go:1305-1309 | over any sequence of additions the first-peer signal is sent at most once, and exactly once if some addition is accepted while it is pending |
| PeerRegistry.HandleUpdatePeerHeights | neutrino/neutrino.go:1238-1262 | every peer other than the origin that last announced the new block gets the new height and forgets the announcement; every other peer, and the group table, are unchanged |
| PeerRegistry.UpdateMapKeepsIdentity | neutrino/neutrino.go:1238-1262 | a height update keeps each peer's id, kind and group, so group membership is unchanged |
| PeerRegistry.UpdatePreservesValid | neutrino/neutrino.go:1238-1262 | a height update keeps the registry consistent and the peer count unchanged |
| PeerRegistry.UpdateIdempotent | neutrino/neutrino.go:1238-1262 | applying the same height update twice equals applying it once |
| PeerRegistry.DisconnectPeer | neutrino/neutrino.go:1363-1380 | a peer is removed if and only if some peer matches the target, the removed one matches, and exactly one entry goes |
| PeerSession.OnVersion | neutrino/neutrino.go:233-303 | the time sample is always added; the peer is disconnected exactly when relay is disabled or it lacks witness or compact-filter service, and registered exactly otherwise; addresses are requested only off simnet, when more are needed and the protocol is new enough; services are recorded only for outbound peers off simnet |
| PeerSession.VersionIgnoresNodeNetwork | neutrino/neutrino.go:252-258 | a peer without full-node service still passes the version checks, although its address would fail the required-services test |
| PeerSession.OnFeeFilter | neutrino/neutrino.go:423-433 | a minimum fee is stored exactly when it lies between zero and the maximum amount, unchanged; otherwise the peer is disconnected |
| PeerSession.ClampTime | neutrino/neutrino.go:477-483 | an address timestamped more than ten minutes ahead is given one five days old; others are unchanged, and key and services never change |
| PeerSession.AdmittedSound | neutrino/neutrino.go:465-487 | the admitted addresses are exactly the qualifying inputs, each clamped, and none are invented; nothing is admitted if and only if nothing qualifies |
| PeerSession.OnAddr | neutrino/neutrino.go:443-504 | simnet and old protocols are ignored; an empty message disconnects; a disconnected peer adds nothing; otherwise the merged addresses are exactly the admitted ones, and a merge happens if and only if some address qualifies |
| KnownTxns.Sweep | neutrino/neutrino.go:317-323 | entries older than twenty minutes are dropped, all others kept with their times |
| KnownTxns.RequestNew | neutrino/neutrino.go:324-333 | every announced transaction not already known is requested once and recorded at the current time; nothing else is requested and known entries keep their times |
| KnownTxns.HashesOf | neutrino/neutrino.go:339-349 | the getdata list carries each entry's hash, in order |
| KnownTxns.AsGetData | neutrino/neutrino.go:339-349 | the getdata entries list exactly the given hashes, with the witness type when witness is enabled |
| KnownTxns.InvTxn | neutrino/neutrino.go:311-351 | with no transaction listeners nothing changes and nothing is sent; otherwise the table is swept, then every newly announced transaction hash is recorded and requested exactly once in one getdata message, which is sent even when empty |
| KnownTxns.DedupeWindow | neutrino/neutrino.go:311-351 | a transaction announced again within twenty minutes of its request is not requested again; announced again later, it is |
| AddressPolicy.EffectiveTarget | neutrino/neutrino.go:790-792 | the outbound target is the smaller of 12 and the connection limit |
| AddressPolicy.NextModeAsWritten | neutrino/neutrino.go:796-811 | as written, relaxed mode always switches back to fast; fast mode switches to relaxed exactly when there is a sync peer and enough peers |
| AddressPolicy.NextMode | neutrino/neutrino.go:796-811 | as the log messages describe: the next mode is relaxed exactly when there is a sync peer and enough peers |
| AddressPolicy.AsWrittenFlaps | neutrino/neutrino.go:801-807 | with a sync peer and enough peers, the mode as written alternates on every tick |
| AddressPolicy.CorrectedSettles | neutrino/neutrino.go:796-811 | after one tick the corrected mode equals "sync peer and enough peers" for good |
| AddressPolicy.ModesDifferOnlyWhenRelaxedAndEnough | neutrino/neutrino.go:801-807 | the written and intended switches disagree exactly when relaxed mode holds with a sync peer and enough peers |
| AddressPolicy.AcceptCandidate | neutrino/neutrino.go:828-856 | a candidate is accepted if and only if it is unbanned, has no outbound peer in its group, was not tried in the last ten minutes unless the try count has reached ten, and is on the default port unless it has reached twenty |
| AddressPolicy.AcceptMonotone | neutrino/neutrino.go:846-855 | a candidate accepted at some try is accepted at every later try |
| AddressPolicy.Select | neutrino/neutrino.go:826-860 | the chosen candidate is the first accepted one, at the try number it is offered; if none is chosen, every candidate was refused |
| AddressPolicy.SelectKeepsGroupsDiverse | neutrino/neutrino.go:840-844 | on a consistent registry, a chosen candidate's group holds no connected outbound or persistent peer |
| FilterScan.BuildWatchListAsWritten | neutrino/neutrino.go:1595-1640 | as written, the watch list always succeeds with one entry per address, and an address whose script fails contributes an empty script |
| FilterScan.BuildWatchList | neutrino/neutrino.go:1595-1640 | the watch list succeeds exactly when every address yields a script, holding those scripts in order; otherwise it reports the first failure |
| FilterScan.WatchListDiscrepancy | neutrino/neutrino.go:1611-1614 | the two agree whenever every script builds; otherwise the written one still succeeds with an empty script where an error was |
| FilterScan.WatchListSwallowsError | neutrino/neutrino.go:1611-1614 | one unsupported address: written, an empty script and no error; corrected, the error |
| FilterScan.PollFromSpec | neutrino/neutrino.go:1714-1737 | from any retry count the poll returns the first successful fetch, or the last error when every remaining one of the 50 attempts fails |
| FilterScan.PollCFilterSpec | neutrino/neutrino.go:1714-1737 | the poll succeeds exactly when one of the 50 attempts does, returns the first success, and otherwise returns the last attempt's error |
| FilterScan.ExamineFetchesOnlyMatches | neutrino/neutrino.go:1659-1686 | a block counts as a hit only if its filter matched and it was fetched; a block whose filter is absent, empty or unmatched is skipped without fetching |
| FilterScan.ScanFromFirst | neutrino/neutrino.go:1658-1708 | the scan answers with the first hit and its batch index when all earlier blocks were skipped, answers nil exactly when every block is skipped, and reports the first failure otherwise |
| FilterScan.ExamineBlock | neutrino/neutrino.go:1659-1686 | a block is downloaded exactly when its filter is present, non-empty and matches the watch list, and every hit was downloaded; its outcome is the one `Examine`, the reference step of the scan, assigns |
| FilterScan.ScanBatch | neutrino/neutrino.go:1658-1709 | the answer is the reference scan of the blocks' outcomes (first hit with its index, first failure, or nil), and only blocks whose filter matched are fetched, in ascending order |
| FilterScan.FilterBlocks | neutrino/neutrino.go:1642-1709 | as written: the scan always runs, over the watch list that has an empty script for each address whose script failed; the answer is the first hit in request order, and only matching blocks are fetched, in ascending order |
| FilterScan.FilterBlocksCorrected | neutrino/neutrino.go:1650-1653 | with the builder's error reported: a script error ends the call before any block is fetched; otherwise it scans as `FilterBlocks` does |
| FilterScan.FilterBlocksAgreeWhenScriptsBuild | neutrino/neutrino.go:1595-1653 | when every address yields a script, both versions build the same watch list, so they give the same answer |
| FilterScan.FilterBlocksSwallowsScriptError | neutrino/neutrino.go:1611-1614 | an empty batch and one address whose script fails: as written the answer is "nothing found", corrected it is the script error |
| ChainService.BestBlock | neutrino/neutrino.go:958-986 | store errors propagate; the stamp is the block tip's height, hash and time when the filter tip has caught up, and otherwise the filter height with the hash and time of the header stored there, so its height never exceeds either tip |
| ChainService.FindByHash | neutrino/neutrino.go:1089-1092 | a header lookup by hash finds a header with that hash, or there is none |
| ChainService.DisconnectTip | neutrino/neutrino.go:1088-1116 | on a linked chain, one rollback step removes the tip and reports it together with its predecessor |
| ChainService.RollBackToHeightAsWritten | neutrino/neutrino.go:1076-1118 | as written, the chain is cut back to the requested height (or kept when already lower), one notification per removed block, but every notification carries the original tip height |
| ChainService.RollBackToHeight | neutrino/neutrino.go:1076-1118 | the corrected rollback cuts the chain the same way, and each notification carries the height of the block it disconnects |
| ChainService.RollbackTwoBlocksExample | neutrino/neutrino.go:1113-1115 | rolling a three-block chain back to genesis: the second notification says height 2 as written, where 1 is intended |
| ChainService.ListenInvs | neutrino/neutrino.go:383-389 | a fresh listener is appended to the hash's list; other hashes are untouched |
| ChainService.StopListenInvs | neutrino/neutrino.go:391-409 | every copy of the listener is removed, and an emptied list is deleted; it reports success exactly when exactly one copy was registered; other hashes are untouched |
| ChainService.ListenersStayValid | neutrino/neutrino.go:383-409 | registering and unregistering keep every list non-empty and every listener id below the next fresh one |
| ChainService.ListenStopRoundTrip | neutrino/neutrino.go:383-409 | stopping a listener just registered succeeds and restores the listener table |
| ChainService.InvRecipients | neutrino/neutrino.go:363-377 | an inventory message reaches exactly the listeners registered for one of its hashes |
| ChainService.Start | neutrino/neutrino.go:1510-1537 | only the call that raises the 32-bit start counter to one starts anything: the address manager, block manager, block subscriptions, UTXO scanner and broadcaster in that order; a broadcaster failure ends it with an error, and the connection manager and peer handler start exactly when there was none |
| ChainService.StopReversesStart | neutrino/neutrino.go:1518-1556 | after a clean start, the first stop shuts the six managers down in the reverse of their start order, then closes the quit channel and waits |
| ChainService.Stop | neutrino/neutrino.go:1541-1559 | only the call that raises the 32-bit shutdown counter to one does anything: it stops the connection manager, broadcaster, UTXO scanner, block subscriptions, block manager and address manager in that order, then closes the quit channel, then waits |
| ChainService.StartOnce | neutrino/neutrino.go:1512-1514 | any run of up to 2^32 Start calls starts the service exactly once |
| ChainService.StopThenAddRejected | neutrino/neutrino.go:1271-1276 | after Stop, the peer handler rejects every new peer for shutdown and keeps its registry |
| TxRequest.Confirms | apiv1/wallet/transaction/util.go:155-162 | an unmined or future transaction has zero confirmations; otherwise one more than the height difference, computed in 32-bit arithmetic |
| TxRequest.ConfirmsNextBlock | apiv1/wallet/transaction/util.go:155-162 | each new block adds one confirmation while no overflow occurs |
| TxRequest.ConfirmsAtTip | apiv1/wallet/transaction/util.go:155-162 | a transaction in the tip block has one confirmation, and an unmined one has none |
| TxRequest.ConfirmsWrapsAtInt32Max | apiv1/wallet/transaction/util.go:161 | at the 32-bit limit the confirmation count wraps negative |
| TxRequest.MakeOutputs | apiv1/wallet/transaction/util.go:111-131 | outputs are built exactly when every address decodes and scripts with the vote (or an empty vote); each keeps its amount; otherwise the first failure is reported |
| TxRequest.DecodeAll | apiv1/wallet/transaction/util.go:80-90 | the from-addresses decode exactly when each does, in order; otherwise the decoder's error for the first undecodable one is returned unchanged |
| TxRequest.BuildRequest | apiv1/wallet/transaction/util.go:40-90 | the request carries the outputs and the caller's settings, oldest-first input selection exactly when a minimum input height is given, a change address exactly when a non-empty one is given, and input addresses exactly when a non-empty list is given; it fails only on an undecodable output, change or from-address, in that order, and a bad change address or from-address gives the decoder's own error |
| TxRequest.MapSendError | apiv1/wallet/transaction/util.go:91-103 | a negative output value becomes "amount must be positive" and a locked wallet the passphrase reminder, and these two are the only fixed messages; wallet JSON errors keep their code and message; every other error, and only those, becomes an internal error carrying its cause |
| TxRequest.SendOutputs | apiv1/wallet/transaction/util.go:40-105 | a request-building error is returned unchanged, a wallet success is returned, and a wallet failure is mapped |
| TxRequest.ValidateSendArgs | apiv1/wallet/transaction/main.go:193-206 | a non-positive amount and a negative 32-bit minconf are refused with the source's messages; +Inf becomes zero; a positive minimum input height is kept and any other becomes zero; the amount conversion's error is returned unchanged, and the arguments are accepted exactly when none of these fails |
| TxRequest.ValidArgsAccepted | apiv1/wallet/transaction/main.go:193-206 | a positive amount, a minconf in range and a non-negative height always validate |
| TxRequest.MinConfWraps | apiv1/wallet/transaction/main.go:200-203 | a minconf of 2^31 wraps negative and is refused |
| TxRequest.LockInputs | apiv1/wallet/transaction/main.go:231-234 | every spent input is locked under the autolock name; other locks are unchanged |
| TxRequest.CreateTransaction | apiv1/wallet/transaction/main.go:186-234 | validation and steward-vote errors are returned with the locks untouched; otherwise the result is exactly the send of one output to the destination with the steward vote, signed or unsigned as asked, failures included, and a success locks its inputs under the autolock name while every other lock keeps its name |
| TxRequest.SendFrom | apiv1/wallet/transaction/main.go:256-294 | validation and steward-vote errors are returned; otherwise the result is exactly the broadcast send of one output with the steward vote and no change address, failures included |
| TxRequest.SameValidation | apiv1/wallet/transaction/main.go:186-294 | createtransaction and sendfrom refuse the same invalid arguments, or an unreadable steward vote, with the same error |
| TxRequest.SameRequestUpToMode | apiv1/wallet/transaction/main.go:186-294 | when the checks pass and no change address is given, both endpoints build the same wallet request except for the send mode, and fail identically when it cannot be built |
| TxDetails.SerializedTx | apiv1/wallet/transaction/main.go:26-41 | binary input is used as given; hex input is accepted exactly when all characters are hex digits, an odd-length input getting a leading zero |
| TxDetails.SerializedTxOfEncoding | apiv1/wallet/transaction/main.go:28-41 | the hex encoding of any bytes decodes back to them |
| TxDetails.SerializedTxOddLength | apiv1/wallet/transaction/main.go:33-35 | an odd-length hex string reads as if a zero were prepended |
| TxDetails.CreditDetails | apiv1/wallet/transaction/main.go:152-177 | there is at most one receive detail per credit, each in the receive category and with its unsigned base-unit field left zero |
| TxDetails.GetTransaction | apiv1/wallet/transaction/main.go:61-184 | a bad hash, a store error and an unknown transaction give their errors; otherwise the block is reported exactly for mined transactions with 32-bit confirmations, the amount totals non-change credits, the fee is counted only when every input is a debit, and the details are the send entry (negated debit total as its amount, the total as its base units) then the receive entries |
| TxDetails.CreditDetailsAccount | apiv1/wallet/transaction/main.go:152-179 | there is one receive detail per non-change credit, and the values behind their BTC amounts sum to the reported credit total |
| TxDetails.CreditDetailsFromCredits | apiv1/wallet/transaction/main.go:152-177 | each receive detail stands for some non-change credit: its output index, the credit's amount behind its BTC amount, and a zero base-unit field |
| TxDetails.ReceiveOnly | apiv1/wallet/transaction/main.go:108-177 | a transaction without debits has zero fee and only receive details, one per non-change credit |
| UtxoLock.ResetLockedOutpoints | apiv1/wallet/unspent/lock/main.go:70-73 | with no name every lock is dropped; with a name exactly the locks under that name are dropped |
| UtxoLock.ListLockUnspent | apiv1/wallet/unspent/lock/main.go:16-31 | one group per lock name in use, each name once, each group listing exactly the outpoints under its name in order |
| UtxoLock.GatherByName | apiv1/wallet/unspent/lock/main.go:18-25 | the grouping map has exactly the lock names in use, each with its outpoints in order |
| UtxoLock.LockUnspent | apiv1/wallet/unspent/lock/main.go:34-50 | each parsed outpoint up to the first unparsable one is locked under the given name or the default; an outpoint is locked afterwards exactly when it was locked before or was one of those; every other lock keeps its name; success exactly when all parse, and otherwise the parser's error for the first bad id |
| UtxoLock.UnlockUnspent | apiv1/wallet/unspent/lock/main.go:52-68 | a named call drops that name's locks, and each parsed outpoint is unlocked; nothing is locked anew or renamed, and a lock neither under that name nor listed survives; success exactly when all parse, and otherwise the parser's error for the first bad id |
| UtxoLock.UnlockAllUnspent | apiv1/wallet/unspent/lock/main.go:70-73 | afterwards no outpoint is locked |
| UtxoLock.LockThenUnlock | apiv1/wallet/unspent/lock/main.go:34-68 | locking then unlocking the same outpoints leaves exactly the other locks |
| UtxoLock.UnlockGroup | apiv1/wallet/unspent/lock/main.go:52-68 | unlocking by name alone drops exactly that name's locks |
| LndConfig.Split | lnd/lnd.go:807 | splitting gives one part more than there are separators, none containing it |
| LndConfig.JoinSplit | lnd/lnd.go:807 | joining the parts of a split restores the string |
| LndConfig.ParseHeaderStateAssertion | lnd/lnd.go:803-829 | the empty state means no assertion; anything but exactly one colon is malformed; the height must parse as a 32-bit unsigned decimal and the rest as a hash, with the source's error for each |
| LndConfig.HeaderStateRoundTrip | lnd/lnd.go:803-829 | rendering a header as height:hash and parsing it back gives the header |
| LndConfig.PathSplit | lnd/lnd.go:836 | the directory and file name concatenate to the path, the name has no slash, and the directory ends with one |
| LndConfig.WalletFilename | lnd/lnd.go:833-843 | an absolute .db path is split into directory and name; a relative .db name stays in the data directory; any other name becomes wallet_NAME.db there |
| LndConfig.WalletFilenameStable | lnd/lnd.go:833-843 | feeding the resulting file name back in gives the same location |
| Hex.Decode | apiv1/wallet/transaction/main.go:36 | decoding succeeds exactly on an even-length all-hex string, giving half as many bytes |
| Hex.DecodeEncode | apiv1/wallet/transaction/main.go:36 | decoding an encoding gives back the bytes |
| Hex.EncodeDecode | lnd/walletunlocker/service.go:292-301 | a decodable lower-case hex string is the encoding of what it decodes to |
| Decimal.ParseUint | lnd/lnd.go:813 | a string parses exactly when it is a non-empty run of digits whose value is below the bound |
| Decimal.ValueRender | neutrino/neutrino.go:850-851 | the rendered port reads back as the number |
| Decimal.RenderInjective | neutrino/neutrino.go:850-851 | two ports render alike exactly when equal |
| Decimal.ParseRender32 | lnd/lnd.go:813-816 | every 32-bit height renders to a string that parses back to it |
| VoteWinnerDb.EncodeHeight | blockchain/votecompute/votewinnerdb/db.go:45-53 | the key is four bytes whose big-endian value is the height as a uint32 |
| VoteWinnerDb.DecodeHeight | blockchain/votecompute/votewinnerdb/db.go:34-43 | a key of the wrong length and a key above the int32 range are errors; otherwise the height is the big-endian value |
| VoteWinnerDb.DecodeEncode | blockchain/votecompute/votewinnerdb/db.go:34-53 | a non-negative height round-trips through its key |
| VoteWinnerDb.DecodeEncodeNegative | blockchain/votecompute/votewinnerdb/db.go:38-40 | a negative height is stored but reads back as the negative-height error |
| VoteWinnerDb.EncodeDecode | blockchain/votecompute/votewinnerdb/db.go:34-53 | every decodable key is the encoding of its height |
| VoteWinnerDb.HeightOrder | blockchain/votecompute/votewinnerdb/db.go:45-53 | byte order of keys is numeric order of heights |
| VoteWinnerDb.LexLessIsNumeric | blockchain/votecompute/votewinnerdb/db.go:45-53 | byte order of four-byte keys equals the order of their big-endian values |
| VoteWinnerDb.Init | blockchain/votecompute/votewinnerdb/db.go:14-23 | an existing index is kept; otherwise an empty one is created, unless creation fails |
| VoteWinnerDb.Destroy | blockchain/votecompute/votewinnerdb/db.go:25-32 | without an index nothing happens; otherwise the bucket is deleted, or, when the store refuses, its error is returned and the bucket stays; success exactly when no index remains |
| VoteWinnerDb.WinnerValue | blockchain/votecompute/votewinnerdb/db.go:66-72 | the stored value is the 32-byte vote hash (zero if malformed) followed by the winner |
| VoteWinnerDb.PutWinner | blockchain/votecompute/votewinnerdb/db.go:63-74 | without an index it fails; a refused write returns the store's error and leaves the bucket; otherwise the height's key maps to the winner value and nothing else changes |
| VoteWinnerDb.RemoveWinner | blockchain/votecompute/votewinnerdb/db.go:55-61 | without an index it fails; a refused deletion returns the store's error and leaves the bucket; otherwise only the height's key is gone |
| VoteWinnerDb.PutThenRead | blockchain/votecompute/votewinnerdb/db.go:63-74 | after a put, the height's entry holds the vote hash and then the winner |
| VoteWinnerDb.UpdatesKeepWellFormed | blockchain/votecompute/votewinnerdb/db.go:55-74 | puts and removals, accepted or refused by the store, keep every stored value at least 32 bytes long |
| VoteWinnerDb.SeekIndex | blockchain/votecompute/votewinnerdb/db.go:83 | the cursor seek lands on the first key not below the target |
| VoteWinnerDb.VisitKey | blockchain/votecompute/votewinnerdb/db.go:85-93 | an empty key ends the walk; otherwise the visit carries the decoded height, the hash prefix and the winner |
| VoteWinnerDb.ListWinnersBefore | blockchain/votecompute/votewinnerdb/db.go:76-95 | without an index it fails; when no key reaches the height nothing is visited |
| VoteWinnerDb.WalkDescends | blockchain/votecompute/votewinnerdb/db.go:84-94 | the walk visits heights in strictly decreasing order, none above the starting key |
| VoteWinnerDb.ListedBelowAfterFirst | blockchain/votecompute/votewinnerdb/db.go:76-95 | the listing is newest-first and every visit after the first is strictly below the height |
| VoteWinnerDb.WalkComplete | blockchain/votecompute/votewinnerdb/db.go:84-94 | with decodable keys and a handler that never fails, the walk visits every key from the cursor down |
| TMap.Ceiling | btcutil/util/tmap/tmap.go:37 | the ceiling is the first entry not below the key |
| TMap.GetEntry | btcutil/util/tmap/tmap.go:49-55 | an entry is returned exactly when one compares equal to the key, and it is that stored entry |
| TMap.GetEntryFinds | btcutil/util/tmap/tmap.go:49-55 | any stored entry equal to the key is the one returned |
| TMap.Insert | btcutil/util/tmap/tmap.go:36-47 | the map stays sorted; the previous entry is returned exactly when the key was present, the size grows only when it was not, the new pair is stored, and entries for other keys are kept |
| TMap.InsertThenGet | btcutil/util/tmap/tmap.go:36-55 | a lookup right after inserting a key finds the new pair |
| TMap.InsertKeepsOthers | btcutil/util/tmap/tmap.go:36-55 | inserting a key does not change lookups of other keys |
| TMap.Len | btcutil/util/tmap/tmap.go:57-59 | the length is the number of entries |
| TMap.Clear | btcutil/util/tmap/tmap.go:61-63 | a cleared map is empty |
| TMap.ForEach | btcutil/util/tmap/tmap.go:22-34 | the callback sees entries in order until it first returns an error; a loop break ends without error, and any other error is returned |
| TMap.ForEachVisitsAll | btcutil/util/tmap/tmap.go:22-34 | a callback that never fails visits every entry and the result is no error |
| ChainRegistry.ChainMapEntries | lnd/chainreg/chainregistry.go:423-429 | the genesis map has four entries, all Bitcoin or Litecoin |
| ChainRegistry.NewChainRegistry | lnd/chainreg/chainregistry.go:488-493 | a new registry has no chains and Bitcoin as primary |
| ChainRegistry.RegisterChain | lnd/chainreg/chainregistry.go:497-503 | registering adds the chain code and keeps the primary |
| ChainRegistry.LookupChain | lnd/chainreg/chainregistry.go:507-514 | a lookup succeeds exactly for registered codes |
| ChainRegistry.RegisterThenLookup | lnd/chainreg/chainregistry.go:497-514 | a lookup after registering finds the new control, and other codes are unaffected |
| ChainRegistry.ReRegisterOverwrites | lnd/chainreg/chainregistry.go:497-503 | registering the same code twice keeps the second |
| ChainRegistry.LookupChainByHash | lnd/chainreg/chainregistry.go:518-529 | a lookup by genesis hash succeeds exactly when the hash is known and its chain registered, returning that chain |
| ChainRegistry.PktNeverFoundByHash | lnd/chainreg/chainregistry.go:423-429 | lookup by hash only ever finds Bitcoin or Litecoin, so a PKT-only registry finds nothing |
| ChainRegistry.RegisterPrimaryChain | lnd/chainreg/chainregistry.go:532-537 | setting the primary leaves the registered chains alone |
| ChainRegistry.PrimaryIsLastRegistered | lnd/chainreg/chainregistry.go:532-547 | the primary is the one set last, whatever is registered afterwards |
| ChainRegistry.ActiveChains | lnd/chainreg/chainregistry.go:550-560 | the listing holds each registered code exactly once |
| ChainRegistry.NumActiveChains | lnd/chainreg/chainregistry.go:563-568 | the count is the number of registered chains, as a uint32 |
| ChainRegistry.CountMatchesListing | lnd/chainreg/chainregistry.go:550-568 | the count equals the length of the listing |
| ChainRegistry.HomeChainConfig | lnd/chainreg/chainregistry.go:203-209 | the home chain is Litecoin's or PKT's configuration when primary, and Bitcoin's otherwise |
| ChainRegistry.DefaultPolicy | lnd/chainreg/chainregistry.go:215-253 | each known chain takes its routing policy, minimum HTLC and static fee estimator with the source's fee constant; an unknown chain is an error |
| ChainRegistry.EffectiveFeeUrl | lnd/chainreg/chainregistry.go:294-301 | setting both fee URLs is an error; otherwise the neutrino one wins when set |
| ChainRegistry.SetupFees | lnd/chainreg/chainregistry.go:203-327 | an unknown chain fails; with working stores the setup fails exactly when both fee URLs are set; on success the home chain's policy is used, and a web estimator is used exactly when a fee URL is |
| ChainRegistry.OneFeeUrlIsUsed | lnd/chainreg/chainregistry.go:294-327 | with at most one fee URL the setup succeeds with that URL, keeping the static estimator when there is none |
| ChanBackups.PackSingles | apiv1/lightning/util.go:33-42 | the packed single backups are the entries' bytes, in order |
| ChanBackups.Populated | apiv1/lightning/util.go:21-42 | the multi backup is carried when present, and the singles are carried in order when present |
| ChanBackups.ExtractChanBackups | apiv1/lightning/util.go:11-43 | a missing or empty snapshot gives the empty value; otherwise its populated parts |
| ChanBackups.ExtractChanBackupsPtr | lnd/walletunlocker/service.go:199-231 | nil exactly when the snapshot is missing or empty; otherwise its populated parts |
| ChanBackups.VariantsAgree | lnd/walletunlocker/service.go:199-231 | the two extractions agree when nil is read as empty |
| ChanBackups.PackSinglesAppend | apiv1/lightning/util.go:33-42 | packing a concatenation is concatenating the packings |
| WalletUnlocker.Passphrase | lnd/walletunlocker/service.go:250-257 | the binary passphrase wins when non-empty, else the text one |
| WalletUnlocker.GenSeed | lnd/walletunlocker/service.go:157-194 | caller entropy is refused; a seed error is returned; otherwise the words are space-free and join back to the mnemonic of the generated seed |
| WalletUnlocker.GeneratedWordsRejoin | lnd/walletunlocker/service.go:157-194 | the words returned by seed generation, joined, are the mnemonic they came from |
| WalletUnlocker.WalletDir | lnd/walletunlocker/service.go:268-271 | an explicit wallet path wins over the network directory |
| WalletUnlocker.WalletName | lnd/walletunlocker/service.go:273-276 | a requested wallet name wins over the configured file |
| WalletUnlocker.InitSeed | lnd/walletunlocker/service.go:292-324 | a single seed word must be hex of exactly 32 bytes and is kept as its text; any other word list is turned into a seed with the seed passphrase |
| WalletUnlocker.InitWallet | lnd/walletunlocker/service.go:245-359 | a negative recovery window and an existing wallet are refused; on success the message carries the seed or legacy seed, the passphrase, the window, the wallet file's name and the channel backups, and it succeeds exactly when delivered |
| WalletUnlocker.LegacySeedKeepsText | lnd/walletunlocker/service.go:292-301 | a 32-byte hex seed initialises a wallet with its 64-character text |
| WalletUnlocker.LegacySeedMustBe32Bytes | lnd/walletunlocker/service.go:292-301 | a single seed word that is not hex of 32 bytes fails initialisation |
| WalletUnlocker.UnlockWallet | lnd/walletunlocker/service.go:364-453 | a missing wallet is refused; it succeeds if and only if the wallet exists, opens, unlocks with the passphrase and the message is delivered, and the message carries the passphrase, the window as a uint32 and the channel backups |
| WalletUnlocker.SamePassphraseRule | lnd/walletunlocker/service.go:250-257 | initialisation and unlock derive the same passphrase from the same request fields |
| WalletUnlocker.NegativeWindowOnUnlockWraps | lnd/walletunlocker/service.go:380 | unlocking with window -1 passes 2^32 - 1 on |

## Left out

- Goroutines, channels, mutexes, timers and sleeps are left out. Each handler is modelled as one step on explicit state; the 30-second mode ticker and the 100 ms poll spacing are not timed.
- Network I/O, the database and the wallet are parameters, and their internals are not modelled. This covers the address manager, connection manager, ban manager, block manager, header store, GCS filters, block filterer, wallet database, seed cipher, `NetworkDir`, the wallet loader and the random source.
- Floating point is left out: `btcutil.NewAmount` is a parameter and `ToBTC` conversions are not modelled; each detail entry carries the base-unit value that its BTC amount is converted from. Amount sums in `gettransaction` use unbounded integers before the final `uint64` conversion, so int64 overflow of the sums is not modelled.
- The compact-filter response carries the block index and block only. The found addresses, outpoints and relevant transactions come from the block filterer, which is a parameter.
- Ban scores, DNS seeding, sync-peer election and the rebroadcaster are not modelled.
- The cursor of the vote-winner index is modelled as a sorted key list. Seek lands on the first key at or above the target; past the end the key is empty and there is no previous entry.
- Protobuf field widths are not modelled beyond the `int32`/`uint32` conversions that the code writes out.
- Transaction serialisation (`decoderawtransaction`'s decoding and createtransaction's Electrum or standard encoding) is not modelled.
- The address-manager and connection-manager calls inside `OnVersion` (adding the peer's own address, marking it good, completing the connection request, recording its services) are recorded as actions, but their effects on the address manager are not modelled. Service bits other than full-node, witness and compact-filter are not modelled.
- Hex.Decode: the contract states validity and length only; the decoded bytes are pinned down by `Hex.DecodeEncode` and `Hex.EncodeDecode`.
- `util.DecodeHex` is taken to behave as the standard library's hex decoding; its package is not part of this model.
- The `ChainCode` declaration is not part of this model; its zero value is taken to be Bitcoin.
- The value of the relay-fee floor is not modelled; only which chain uses it is.
- The wallet and lightning-wallet construction in `NewChainControl` after the fee estimator is not modelled.
- WalletUnlocker.GenSeed: the mnemonic's split into words is stated through its inverse, joining with spaces, not word by word.
- ChainRegistry.NumActiveChains: the count is exact only below 2^32 chains; above that it only promises a uint32.
- ChainRegistry.PrimaryChain and ChainService.StartCalls: they only read state, so their rows are the lemmas about them.
- VoteWinnerDb.ListWinnersBefore: the contract states the error and empty cases; ordering and completeness of the listing are in `VoteWinnerDb.ListedBelowAfterFirst` and `VoteWinnerDb.WalkComplete`.
- AddressPolicy.Select: the address manager's own candidate order and randomness are a parameter (the candidate sequence); relaxed mode's effect on that order is not modelled.

## Findings

| source | as written | input that shows it | evidently intended | confidence | as-written member | corrected member |
|---|---|---|---|---|---|---|
| neutrino/neutrino.go:1611-1614 | the watch-list builder tests the outer error variable, which is still nil, so a script error is dropped and a nil script appended | one address whose script cannot be built and an empty batch: no error, watch list `[[]]`, answer "nothing found" | the first script error is returned and `FilterBlocks` stops with it | not executed | FilterScan.FilterBlocks, shown by FilterScan.FilterBlocksSwallowsScriptError | FilterScan.FilterBlocksCorrected, with FilterScan.BuildWatchList |
| neutrino/neutrino.go:801-807 | in relaxed mode the store of false runs after the log branches, so relaxed mode is always left | a sync peer and 5 peers: the mode alternates relaxed, fast, relaxed on successive ticks | relaxed mode is left only when the sync peer is lost or peers run short | not executed | AddressPolicy.AsWrittenFlaps | AddressPolicy.NextMode |
| neutrino/neutrino.go:1113-1115 | every block-disconnected notification passes the original tip height, which the loop never updates | rolling a three-block chain back to height 0: the second notification says height 2 for the block at height 1 | each notification carries the height of the block it disconnects | not executed | ChainService.RollBackToHeightAsWritten, shown by ChainService.RollbackTwoBlocksExample | ChainService.RollBackToHeight |
