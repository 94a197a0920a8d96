# Verified model of a full node's bookkeeping

This project models, in Dafny, the parts of a btcd-derived full node (with its pool draw) that keep
books which must never go wrong, and proves what they promise. Each part follows the program's own
form: objects that are updated in place are classes, loops are loops with invariants, and pure code
is functions. `dafny verify dfyconfig.toml` checks everything.

| files | part of the node |
|---|---|
| `SkipHeights`, `BlockTree`, `MedianTime`, `ChainView` | block nodes, skip pointers, past median time, chain views |
| `BlockKeys`, `BlockIndex`, `InactiveTips`, `Accept`, `Restart`, `Process` | the block index, accepting headers and blocks, flushing, restarting, and runs of all of these |
| `Vlq`, `Compress`, `SpendJournal`, `UtxoView` | stored numbers, amounts, scripts and outputs; the spend journal; connecting and disconnecting blocks |
| `AddrBook`, `AddrManager`, `AddrFile` | the address manager's buckets, and saving and loading them |
| `PeerNet`, `PeerServer` | the life of peers: connections, event queue, peer maps, queries |
| `CheckptCache`, `CFCheckpt` | filter header checkpoints and their cache |
| `DrawTickets` | the draw and the ticket query |
| `NtfnQueues`, `WatchIndex`, `Rescan` | websocket notification queues, watch lists and rescans |

The main results are statements over all inputs or all runs: a fast walk refines the parent walk,
and the longest one from below any power of two is given exactly; the most-work header is selected
after every sequence of submissions; a restart after any sequence of headers, blocks, marks, flushes and database
errors finds every accepted block with its whole branch and nothing that was not submitted; a block
that was connected can be taken back through its stored journal with exactly the old set of unspent
outputs, and with any other entries exactly if they are right where it matters; every operation keeps the address books exact, and saving and loading gives them back; no
interleaving of connections, events and queries miscounts, leaks or reports a peer twice; over every
run of checkpoint requests each answer is the one a direct lookup gives, exactly unless a request
does the one kind of damage that is possible.

The comment at `blockchain/blockindex.go:186-188` gives 330 iterations as the maximum from height
2^29. That is exact for walks that start there (`WalkFromHeight29`); over all starts below 2^29 the
maximum is 356 (`WalkFromBelowHeight29`, and `LongestWalk` in general).

## What does not hold

Some promises fail, and the exact condition under which they hold is proved instead.

- The reader of the spend journal is documented to mirror the writer's count
  (`blockchain/chainio.go:464-467`). It counts all inputs of a transaction that has one ordinary
  input, while the writer skips sentinel inputs one by one. An entry is readable exactly when no
  transaction mixes the two (`FetchStored`, `MixedBlockIsUnreadable`), and a block with such a
  transaction cannot be disconnected (`StoredBlockUndone`).
- An old journal format kept height and coinbase flag only for some entries. What is missing is to
  be looked for among the outputs of the spent output's transaction
  (`blockchain/utxoviewpoint.go:463-480`), but the code asks for the hash of the spending one, and so
  finds the height of the block that is taken back, or nothing. Disconnecting fails exactly if a
  transaction with such an entry has no output of its own that can be spent (`ConnectThenDisconnect`). Otherwise the
  unspent outputs are restored exactly if the height so found is right for every such output that
  was there before the block (`RedatedUndone`); on a chain, exactly if all heights that are missing
  are those of outputs that the block itself made (`OldJournalOnChain`). `OldJournalFails` is a
  journal with which an output of height 5 comes back with height 7.
- Resetting the address manager after a refused file clears its maps but not its counters
  (`addrmgr/addrmanager.go:708-720`). The books are right afterwards exactly when nothing had been
  counted (`RefusedFile`, `RefusedFileExample`).
- The time at which an address was last seen is saved and never read back: after loading every
  address was seen just now (`LoadSaved`).
- Growing the checkpoint cache may reuse its memory, so that a request that fails can overwrite it
  (`server.go:1160-1246`). Later answers stay right exactly unless a request grew the cache in place,
  wrote at least one entry and failed before the old end of the cache (`FailedRequest` for one
  request, `AnswersAreDirect` for runs). `DamagedCache` is a run of two requests after which an
  answer is wrong.
- A draw among stakers who together hold no whole token divides by zero
  (`blockchain/tape.go:55-63,149`). `RunDraw` has a result exactly otherwise. The node itself never
  gets there: stakes are checked to be whole tokens, one at least, before they are indexed
  (`blockchain/validate.go:1259`).
- The ticket query lays wallets out in the order in which they first appear in the index
  (`rpcserverdraw.go:624-632`), which is that of the hashes of their stake transactions
  (`blockchain/stakeindex.go:358-364`), and the draw in the order of the wallets' own hashes
  (`blockchain/tape.go:77-83`). They name the same winner on every position exactly when the two
  orders agree (`AgreeIffSorted`, `UnsortedDisagrees`).
- A rescan leaves what the client had or was paid and not spent, exactly if no output that was paid
  for good is spent by the paying transaction or an earlier one (`ExactForm`, `OutOfOrder`). On a
  valid chain there is no such output (`ClosedForm`).

## Assumptions

Block hashes are a function of the header; `NoCollision`, `Identified` and `Distinct` say where two
known headers must not share a hash. Filter headers are a function of the block; that different
blocks have different ones (`Told`) is used only to show that a damaged cache gives wrong answers.
Public keys are behind `Curve`, which assumes that a valid key can be recovered from its x coordinate
and parity (`ToyCurveIsSound` shows that this can be met). The text of a network address is its key:
parsing it and printing it again gives the same text. The pool of waiting transactions leads from
each outpoint to the transaction that spends it (`PoolOk`). Bucket hashing, routability and badness
of addresses, name parsing, lookups in indexes and databases, random numbers, clocks, whether growing
a slice reuses its memory, and the outcome of database transactions are parameters. A wallet hash is
read as a big-endian number. Locked regions are atomic steps, and channels are sequences.

## Model

| member | source | states |
|---|---|---|
| `SkipHeights.InvertIsBitTrick` | blockchain/blockindex.go:180-182 | the arithmetic form of the lowest-one step is the bit trick `n & (n - 1)`, for every number |
| `SkipHeights.InvertLowestOneMeaning` | blockchain/blockindex.go:180-182 | clearing the lowest one of a number with `m` trailing zeros removes exactly 2^m |
| `SkipHeights.AncestorHeightDecreases` | blockchain/blockindex.go:185-190 | the skip height of every positive height is strictly below it |
| `SkipHeights.WalkIsQuadratic` | blockchain/blockindex.go:185-229 | every walk of `Ancestor` from a height below 2^b, to every target, takes at most (3b² + 12b)/8 iterations |
| `SkipHeights.WalkFromPowerOfTwo` | blockchain/blockindex.go:185-229 | from height 2^k the walk to height 1 is the longest, and its length is given exactly |
| `SkipHeights.WalkFromHeight29` | blockchain/blockindex.go:185-229 | the documented maximum of 330 iterations from height 2^29 is exact |
| `SkipHeights.LongestWalk` | blockchain/blockindex.go:185-229 | for every k, no walk from a height below 2^k is longer than `WorstCost(k)`, and one is as long |
| `SkipHeights.WalkFromBelowHeight29` | blockchain/blockindex.go:185-229 | over all starts below 2^29 and all targets the maximum is 356, which the start two blocks below reaches |
| `BlockTree.BlockNode.constructor` | blockchain/blockindex.go:119-145 | a node made from a header and its parent is linked: height, cumulative work and skip pointer are those its whole branch gives it |
| `BlockTree.BlockNode.Ancestor` | blockchain/blockindex.go:205-229 | returns the node that following parents reaches at the height, or none outside the range |
| `BlockTree.BlockNode.WalkBack` | blockchain/blockindex.go:211-229 | the loop of the former: same node, in exactly the counted number of iterations |
| `BlockTree.BlockNode.IsAncestor` | blockchain/blockindex.go:286-305 | decides proper ancestry whenever hashes identify the nodes of the branch, and never says yes without an equal proper ancestor |
| `BlockTree.SkipPointer` | blockchain/blockindex.go:193-197 | every linked node but the root has a skip pointer, to its ancestor at the skip height |
| `BlockTree.BranchShape` | blockchain/blockindex.go:119-135 | along a linked branch node i has height i and its own branch is the prefix up to it |
| `BlockTree.SamePath` | blockchain/blockindex.go:119-135 | nodes with the same header path agree on height, work, parent path and skip pointer |
| `MedianTime.MiddleIsMedian` | blockchain/blockindex.go:320-353 | the middle of the sorted window is a median: at most half below it and more than half not above it |
| `MedianTime.MedianTimeNeverDecreases` | blockchain/blockindex.go:320-353 | when every timestamp exceeds its parent's past median time, past median times never decrease, short windows included (section "Specification" of BIP 113) |
| `MedianTime.ChainMedianTime` | blockchain/blockindex.go:320-353 | the same for any two blocks of the branch of any node |
| `MedianTime.CalcPastMedianTime` | blockchain/blockindex.go:320-353 | the loop over parents and the in-place collection return the past median time of the node's branch |
| `ChainViews.ChainView.SetTip` | blockchain/chainview.go:116-162 | after any change of tip the view is exactly the branch of the new tip, although only the part that differs is rewritten |
| `ChainViews.ChainView.FindFork` | blockchain/chainview.go:292-346 | returns the highest block that the view and the branch of the node share, and none when they share none |
| `BlockIndexes.BlockIndex.Create` | blockchain/chainio.go:1090-1103 | a new chain state, an index with the genesis node alone, is healthy |
| `BlockIndexes.BlockIndex.AddNode` | blockchain/blockindex.go:415-428 | enters one node under its own hash, marks it dirty and keeps every other entry; the index stays healthy if the node is new, its parent is known and data is stored on top of data |
| `BlockIndexes.BlockIndex.SetStatusFlags` | blockchain/blockindex.go:445-450 | sets exactly the given bits of one node and marks it dirty; the index stays healthy exactly unless data is recorded on top of a parent that is a bare header |
| `BlockIndexes.BlockIndex.UnsetStatusFlags` | blockchain/blockindex.go:456-461 | clears exactly the given bits of one node and marks it dirty; the index stays healthy as long as the stored flags are not among them |
| `BlockIndexes.BlockIndex.FlushToDB` | blockchain/blockindex.go:503-556 | writes exactly the dirty nodes that have block data, all or none; only then is the dirty set emptied; succeeds exactly when the transaction does or there is nothing to write; no row is lost |
| `BlockIndexes.HealthyAfterAdd` | blockchain/blockindex.go:415-428 | adding a linked node whose parent is known keeps the whole index invariant |
| `BlockIndexes.HealthyAfterStatus` | blockchain/blockindex.go:445-461 | changing a status keeps the invariant as long as the stored flags stay and data is stored from the root up |
| `BlockIndexes.HealthyAfterFlush` | blockchain/blockindex.go:503-556 | a flush keeps the invariant, rows included |
| `BlockIndexes.RowedIsStored` | blockchain/blockindex.go:503-556 | only blocks with stored data have rows, and all of them once nothing is dirty |
| `InactiveTips.FindInactiveTips` | blockchain/blockindex.go:466-499 | the result is exactly the known blocks outside the best chain on which no known block builds |
| `Accept.BranchKnown` | blockchain/accept.go:64-85 | every known branch starts at the genesis node and all of it is known |
| `Accept.BlockChain.constructor` | blockchain/chainio.go:1345-1360 | the best header view starts as the branch of the tip |
| `Accept.BlockChain.ChooseBestHeader` | blockchain/accept.go:188-236 | the best header tip has the most work among all accepted headers, never loses work, keeps the earlier tip on ties, and the result says whether the header is in the view |
| `Accept.BlockChain.StoreHeader` | blockchain/accept.go:183-236 | adds the header if it is new and nothing else, flushes, and selects; succeeds exactly when the flush does, with nothing left dirty; a failed flush selects nothing |
| `Accept.BlockChain.MaybeAcceptBlockHeader` | blockchain/accept.go:123-236 | accepts exactly the headers with a good parent and no bad mark that are in the best view or pass both checks and the flush; at most its own node is new, as a header; a clean index stays clean; keeps tree and selection; a rejection by rule changes nothing |
| `Accept.BlockChain.MaybeAcceptBlock` | blockchain/accept.go:25-107 | stores a block under its hash, upgrading a header-only node in place, and changes no other entry; exact conditions for success and each error; after success nothing is dirty; failed checks change nothing |
| `Accept.BlockChain.ProcessBlock` | blockchain/process.go:143-238 | whatever is submitted: exactly when a block is kept, becomes an orphan or is a duplicate; the duty towards `MaybeAcceptBlock` is met, so that the tree stays sound |
| `Accept.HeaderStored` | blockchain/accept.go:183-194 | accepting a header changes nothing in the set of stored blocks |
| `Accept.BlockStored` | blockchain/accept.go:72-84 | storing a block adds exactly that block to the set of stored blocks |
| `BlockKeys.BigEndianOrder` | blockchain/chainio.go:1514-1519 | byte order of big-endian heights is numeric order |
| `BlockKeys.LowerHeightFirst` | blockchain/chainio.go:1514-1519 | the key of a lower block precedes the key of a higher one, whatever their hashes |
| `Restart.ParentFirst` | blockchain/chainio.go:1307-1349 | for every row but the genesis row, the parent's row exists and has a smaller key |
| `Restart.ReadRow` | blockchain/chainio.go:1318-1344 | every row that the scan meets finds its parent, so the error for an unknown parent cannot occur, and gives back the node it was written from |
| `Restart.LoadBlockIndex` | blockchain/chainio.go:1307-1349 | the ordered scan of any bucket that a running index wrote succeeds and rebuilds a node for every row |
| `Restart.RestartIndex` | blockchain/chainio.go:1307-1349 | restarting at any moment rebuilds a healthy index of exactly the blocks that have rows, with the same header paths, hence parents, heights, work and skip pointers; without dirty nodes these are all stored blocks with their statuses |
| `Process.Submit` | blockchain/process.go:84-275 | one step of any kind, a header, a block, an orphan tried again, a mark or a flush: no row is lost, the stored blocks grow by exactly this block if it came that far, an accepted block or a flush leaves nothing dirty |
| `Process.SetMark` | blockchain/chain.go:1273-1384 | setting or clearing the marks of valid, failed and descending blocks changes neither the stored blocks nor their rows |
| `Process.KeptIsDurable` | blockchain/accept.go:81-84 | an accepted block has its row from then on, whatever is submitted and whatever fails later |
| `Process.StoredInRun` | blockchain/process.go:143-275 | over a run the stored blocks are the old ones and those that came as far as the index |
| `Process.RestartAfterRun` | blockchain/chainio.go:1307-1349 | what has rows after a run: everything that had, every accepted block, nothing that was not submitted, and exactly the accepted blocks if none got lost between index and database |
| `Process.RunThenRestart` | blockchain/process.go:84-275 | any run of such steps and then a restart: the best header has the most work of all accepted ones, and the restarted index is healthy and holds what the former lemma says, with whole branches, and with their marks after a flush |
| `Vlq.DecodeEncode` | blockchain/compress.go:17-103 | decoding the encoding of any 64-bit number, whatever follows, returns the number and its length |
| `Vlq.EveryStringIsUsed` | blockchain/compress.go:17-31 | every complete byte string is the encoding of some number |
| `Vlq.EncodeIsComplete` | blockchain/compress.go:17-31 | an encoding is complete: only its last byte has the high bit clear |
| `Vlq.SerializeSize` | blockchain/compress.go:52-59 | the counting loop returns the length of the encoding |
| `Vlq.Deserialize` | blockchain/compress.go:93-106 | the reading loop decodes, also when the data ends early |
| `Vlq.Put` | blockchain/compress.go:66-88 | writing low groups first and reversing in place leaves the encoding in the buffer and the rest untouched |
| `Vlq.ReverseInPlace` | blockchain/compress.go:82-85 | the swap loop reverses a part of the buffer and nothing else |
| `Compress.DecompressCompress` | blockchain/compress.go:422-510 | decompression undoes compression for every amount |
| `Compress.CompressDecompress` | blockchain/compress.go:422-510 | every number is the compression of the amount it stands for: no value is wasted |
| `Compress.CompressTxOutAmount` | blockchain/compress.go:463-487 | the stripping loop computes the compressed amount modulo 2^64 |
| `Compress.CompressedAmountFits` | blockchain/compress.go:463-487 | for amounts up to 21 million coins nothing wraps |
| `Compress.DecompressTxOutAmount` | blockchain/compress.go:493-528 | the scaling loop computes the decompressed amount modulo 2^64 |
| `Compress.DecompressCompressScript` | blockchain/compress.go:271-420 | every compressed script is measured and rebuilt exactly, whatever data follows, for every curve on which keys can be recovered |
| `Compress.ToyCurveIsSound` | blockchain/compress.go:213-238 | the assumption about the curve can be met |
| `Compress.DecodeEncodeTxOut` | blockchain/compress.go:546-586 | a compressed output followed by anything is decoded to its script and length, and to its amount whenever the compressed amount fits 64 bits, as it does for all real amounts |
| `Compress.CompressedScriptSize` | blockchain/compress.go:244-264 | the size is the length of the compressed script |
| `Compress.PutCompressedScript` | blockchain/compress.go:299-338 | the compressed script is written in place, the rest of the buffer untouched |
| `Compress.CompressedTxOutSize` | blockchain/compress.go:546-549 | the size is the length of the compressed output |
| `Compress.PutCompressedTxOut` | blockchain/compress.go:556-560 | amount and script are written one after the other in place |
| `SpendJournal.HeaderCodeBack` | blockchain/chainio.go:286-297 | height, negative ones included, and coinbase flag are recovered from the header code |
| `SpendJournal.DecodeEncodeStxo` | blockchain/chainio.go:300-373 | a stored output followed by anything is decoded exactly, with the reserved byte present only above height zero |
| `SpendJournal.ReadBackEntry` | blockchain/chainio.go:381-452 | reading as many outputs as were written returns them in order; reading more always fails |
| `SpendJournal.KeptInputs` | blockchain/chainio.go:460-482 | the reader counts at least as many outputs as were written, and more exactly when a transaction mixes sentinel and ordinary inputs |
| `SpendJournal.FetchStored` | blockchain/chainio.go:460-509 | an entry with one output per spending input is read back unchanged exactly when no transaction is mixed, and is reported corrupt otherwise |
| `SpendJournal.ReaderMeetsWriter` | blockchain/chainio.go:381-482 | without mixed transactions the reader pairs each output with the input that spent it |
| `SpendJournal.MixedBlockIsUnreadable` | blockchain/chainio.go:460-498 | a block of one mixed transaction whose own entry cannot be read |
| `SpendJournal.CountSpentOutputs` | blockchain/chain.go:986-1001 | the nested loops count the inputs that are neither sentinels nor of a VDF result |
| `SpendJournal.SelectTxns` | blockchain/chainio.go:468-482 | the filter keeps the transactions with some ordinary input |
| `SpendJournal.SerializeSize` | blockchain/chainio.go:300-309 | the size is the length of the stored output |
| `SpendJournal.PutStxo` | blockchain/chainio.go:315-326 | header code, reserved byte and output are written in place |
| `SpendJournal.SerializeEntry` | blockchain/chainio.go:432-452 | the sized buffer ends up holding the outputs in reverse order, completely filled |
| `SpendJournal.DeserializeEntry` | blockchain/chainio.go:381-428 | the nested backward loops return what reading back to front yields, with the error for a missing entry |
| `UtxoView.DisconnectUndoes` | blockchain/utxoviewpoint.go:275-515 | taking a valid transaction back with what it spent restores the unspent outputs exactly |
| `UtxoView.ConnectMeans` | blockchain/utxoviewpoint.go:275-327 | connecting adds exactly the outputs that can be spent with their height and coinbase flag; every other output is there exactly if it was and is not spent |
| `UtxoView.JournalOrder` | blockchain/utxoviewpoint.go:275-327 | a valid block spends its outputs in the order that the reader of the journal assumes |
| `UtxoView.BlockUndone` | blockchain/utxoviewpoint.go:335-515 | the same for every valid block, transactions that spend within the block included |
| `UtxoView.TakenBackRight` | blockchain/utxoviewpoint.go:379-515 | taking a valid block back with any entries at all, one per spent output, restores the old unspent outputs exactly if the entries are right for those that were there before the block; entries for outputs that the block made do not matter |
| `UtxoView.RedatedUndone` | blockchain/utxoviewpoint.go:463-500 | with what an old format kept of the journal, whichever heights it lost, and with those filled in as the code does: restored exactly if they are right for outputs from before the block |
| `UtxoView.OldJournalOnChain` | blockchain/utxoviewpoint.go:463-500 | where outputs from before the block are from lower heights: restored exactly if only outputs that the block made lack a height |
| `UtxoView.OldJournalFails` | blockchain/utxoviewpoint.go:463-500 | an old journal with which an output comes back with another height |
| `UtxoView.JournalFirst` | blockchain/utxoviewpoint.go:307-317 | at its first spend in a block an output from before it is journaled exactly as it was |
| `UtxoView.DatedJournal` | blockchain/utxoviewpoint.go:307-317 | a journal lacks a height exactly if the block spends an output that had none before it |
| `UtxoView.StoredBlockUndone` | blockchain/utxoviewpoint.go:379-515 | connecting, storing the journal, with or without some heights, reading it back and disconnecting: readable exactly when no transaction is mixed, and then restored exactly when the heights filled in are right |
| `UtxoView.SpentByBodies` | blockchain/chain.go:986-1001 | the length of a block's journal is the number that the sanity check expects |
| `UtxoView.UtxoViewpoint.AddTxOuts` | blockchain/utxoviewpoint.go:206-268 | adds exactly the spendable outputs, unspent |
| `UtxoView.UtxoViewpoint.ConnectTransaction` | blockchain/utxoviewpoint.go:275-327 | spends the inputs and adds the outputs, noting what was spent in order; fails exactly when an input is unknown, with exactly the inputs before it spent and noted |
| `UtxoView.UtxoViewpoint.ConnectTransactions` | blockchain/utxoviewpoint.go:335-347 | whenever it succeeds the view is the connected one; a valid block always connects and leaves its journal; changed coins are the block's own |
| `UtxoView.UtxoViewpoint.DisconnectTransactions` | blockchain/utxoviewpoint.go:379-515 | refuses a journal of the wrong length untouched; otherwise takes the block back last to first, giving entries without a height that of the block, and fails exactly if a transaction with such an entry has no output that can be spent |
| `UtxoView.ConnectThenDisconnect` | blockchain/utxoviewpoint.go:335-515 | a valid block connected to a view and taken back with its journal, or with what an old format kept of it: exactly when this fails, and exactly when it leaves the old unspent outputs |
| `UtxoView.UtxoViewpoint.FindDate` | blockchain/utxoviewpoint.go:481-500 | an entry keeps its height; one without gets that of the view's outputs of the spending transaction, or fails if neither view nor database have any |
| `UtxoView.UtxoViewpoint.FetchEntryByHash` | blockchain/utxoviewpoint.go:352-373 | finds an output of the transaction in the view if there is one, and otherwise asks the database |
| `AddrBook.EmptyHealthy` | addrmgr/addrmanager.go:708-720 | the books of a new address manager satisfy the invariant |
| `AddrBook.DropHealthy` | addrmgr/addrmanager.go:244-280 | taking any addresses out of one bucket keeps the invariant: counts equal buckets, tried and new exclude each other, counters and sizes are exact |
| `AddrBook.HoldHealthy` | addrmgr/addrmanager.go:233-236 | adding a known address to one more bucket with room keeps the invariant |
| `AddrBook.FreshHealthy` | addrmgr/addrmanager.go:205-236 | entering an unknown address in its first bucket keeps the invariant |
| `AddrBook.DetachHealthy` | addrmgr/addrmanager.go:942-958 | taking a new address out of all buckets and off the books keeps the invariant |
| `AddrBook.AddTriedHealthy` | addrmgr/addrmanager.go:965-972 | appending to a tried list with room keeps the invariant |
| `AddrBook.ReplaceTriedHealthy` | addrmgr/addrmanager.go:974-998 | replacing an entry of a full tried list keeps the invariant |
| `AddrManagers.ExpireMakesRoom` | addrmgr/addrmanager.go:244-280 | expiring always frees a place in a bucket that is not empty |
| `AddrManagers.UpdateHealthy` | addrmgr/addrmanager.go:166-239 | every effect of hearing about an address keeps the invariant |
| `AddrManagers.PromoteHealthy` | addrmgr/addrmanager.go:913-999 | every effect of a successful connection keeps the invariant |
| `AddrManagers.PromoteConserves` | addrmgr/addrmanager.go:913-999 | promotion, with or without eviction, neither loses nor invents an address, and the address ends up tried and listed |
| `AddrManagers.CountsAddUp` | addrmgr/addrmanager.go:644-646 | the two counters add up to the number of known addresses |
| `AddrManagers.AddrManager.ExpireNew` | addrmgr/addrmanager.go:244-280 | drops every bad address of the bucket and one oldest good one, in any order of traversal |
| `AddrManagers.AddrManager.PickTried` | addrmgr/addrmanager.go:285-297 | returns the first of the eldest entries |
| `AddrManagers.AddrManager.LeaveNew` | addrmgr/addrmanager.go:942-955 | takes the address out of every bucket, counts them off and returns the first one |
| `AddrManagers.AddrManager.UpdateAddress` | addrmgr/addrmanager.go:166-239 | has exactly the described effect; the random number is never drawn from an empty range |
| `AddrManagers.AddrManager.Good` | addrmgr/addrmanager.go:913-999 | has exactly the described effect; an untried address is always found in a bucket; the evicted one goes to its own bucket or to the one just freed |
| `AddrManagers.AddrManager.Attempt` | addrmgr/addrmanager.go:867-883 | changes two fields of a known address and keeps the invariant |
| `AddrFile.SavePeers` | addrmgr/addrmanager.go:363-408 | the file lists every address and bucket entry once, and the tried lists in order |
| `AddrFile.LoadSaved` | addrmgr/addrmanager.go:363-549 | loading a saved file always succeeds, passes the sanity checks and restores buckets, list order, counts, flags and counters; only the seen times become the present and other times lose fractions of seconds |
| `AddrFile.RefusedFile` | addrmgr/addrmanager.go:425-441 | a refused file leaves books that satisfy the invariant exactly when no address had been counted before the refusal |
| `AddrFile.RefusedFileExample` | addrmgr/addrmanager.go:708-720 | a file after whose refusal a counter is wrong, since resetting does not clear the counters |
| `AddrFile.DeserializePeers` | addrmgr/addrmanager.go:444-549 | the loops compute the specified loading of any file, and on refusal leave index, buckets and counters as far as they had come |
| `AddrFile.LoadPeers` | addrmgr/addrmanager.go:425-441 | loads the file or clears index and buckets but not the counters |
| `AddrFile.Restart` | addrmgr/addrmanager.go:363-549 | saving one manager and loading into a new one yields a valid manager with the restored books |
| `PeerNet.StepValid` | server.go:2340-2371 | every step of a connection, of its lifecycle goroutine, of the server and of an administrator keeps the invariant |
| `PeerNet.RunSafe` | server.go:1800-1966 | in every state of every interleaving: group counts are exact, peers never exceed the maximum, the sync manager hears of a peer at most once and of its end at most once and only after that, and the maps list exactly the peers that were added and neither finished nor removed by a query |
| `PeerNet.NothingLeaks` | server.go:1908-1966 | once all connections have ended and all events are handled, maps and group counts are empty and every start was matched by an end |
| `PeerNet.HandleAddValid` | server.go:1800-1903 | handling an addition keeps the invariant, whether the peer is filed or turned away |
| `PeerNet.HandleDoneValid` | server.go:1908-1966 | handling an end keeps the invariant and leaves the peer in no map, even if a query removed it first |
| `PeerNet.KickValid` | server.go:2219-2234 | removal by a query keeps the invariant |
| `PeerNet.SendAddValid` | server.go:2343-2347 | queueing the addition keeps the invariant, one event of each kind and in order |
| `PeerNet.SendDoneValid` | server.go:2366-2368 | queueing the end keeps the invariant |
| `PeerServer.Server.HandleAddPeerMsg` | server.go:1800-1903 | files the peer in the map of its kind and counts its group, or disconnects it; the result says which |
| `PeerServer.Server.HandleDonePeerMsg` | server.go:1908-1966 | unfiles exactly this peer and reports its end when it had been added |
| `PeerServer.Server.HandleEvent` | server.go:2413-2421 | takes the next event off the queue and handles it, keeping the invariant |
| `PeerServer.Server.DisconnectPeer` | server.go:2219-2234 | drops one matching peer of a map with its group count, or reports that there is none |
| `PeerServer.Server.RemoveNode` | server.go:2153-2164 | drops one matching persistent peer |
| `PeerServer.Server.DisconnectNode` | server.go:2180-2208 | drops one matching inbound peer, or else all matching outbound ones and no others |
| `CFCheckpt.IntervalBlockHashes` | blockchain/chain.go:1844-1877 | returns the ancestors at the multiples of the interval, although lookups switch to the best chain where they meet it |
| `CFCheckpt.AgreeBelow` | server.go:1188-1204 | branches that agree at one checkpoint agree at all earlier ones |
| `CFCheckpt.ServeRight` | server.go:1127-1253 | from a cache along one branch every request, on any branch and with any part of the index available, is answered with the direct answer or not at all, and answered if everything is available |
| `CFCheckpt.FailedRequest` | server.go:1160-1246 | after any request on such a cache later answers are right, and the cache is along one branch, exactly unless the request grew the cache in place, wrote an entry and failed before its old end |
| `CFCheckpt.DamagingRequest` | server.go:1160-1246 | after such a request asking for the old branch gives a wrong answer, whatever the index has by then for the part within the cache |
| `CFCheckpt.DamagedCache` | server.go:1160-1246 | two branches of any lengths and two requests after which the answer for the first branch starts with a filter header of the second |
| `CFCheckpt.AnswersAreDirect` | server.go:1127-1253 | for every run of requests, failing ones included, with the index changing in between: all answers at all moments are direct exactly if no request did damage |
| `CFCheckpt.NothingMissing` | server.go:1127-1253 | in particular if each request found all filter headers or did not reuse memory |
| `CheckptCache.CheckptServer.OnGetCFCheckpt` | server.go:1127-1253 | the loops compute the specified answer and cache, failed lookups included |
| `CheckptCache.FindFork` | server.go:1188-1197 | the backward loop finds the last cached entry that matches |
| `CheckptCache.ServeEntry` | server.go:1219-1249 | which entries a request leaves in the cache, whether it succeeds or fails |
| `NtfnQueues.QueueHandler.Receive` | rpcwebsocket.go:160-178 | a message is passed on directly only when the queue is empty; sent and queued messages are the received ones in order |
| `NtfnQueues.QueueHandler.Dequeue` | rpcwebsocket.go:180-188 | the oldest queued message is sent next |
| `NtfnQueues.Client.Receive` | rpcwebsocket.go:1775-1782 | messages are handed over in order and at most one is on its way |
| `NtfnQueues.Client.NoticeReport` | rpcwebsocket.go:1785-1799 | the next pending message goes out only after the last one was reported |
| `NtfnQueues.Client.Wrote` | rpcwebsocket.go:1830-1838 | the slot for the report is always free, so reporting never blocks |
| `NtfnQueues.Client.Drain` | rpcwebsocket.go:1845-1856 | dropping what is left after a disconnect keeps the order and the single slot |
| `WatchIndex.Manager.AddSpentRequests` | rpcwebsocket.go:842-875 | the client watches exactly the outpoints it did and the new ones; both directions agree; of each pool transaction that spends one of them exactly the clients that watch one of its inputs are told, once each |
| `WatchIndex.RemoveValid` | rpcwebsocket.go:892-911 | removing a request keeps both directions in agreement and leaves no key without a client |
| `WatchIndex.AddValid` | rpcwebsocket.go:842-860 | adding a request keeps both directions in agreement |
| `WatchIndex.Manager.AddAddrRequests` | rpcwebsocket.go:1083-1101 | the same for addresses |
| `WatchIndex.Manager.UnregisterClient` | rpcwebsocket.go:511-524 | a client that leaves is in none of the maps, and no other client's request is touched |
| `WatchIndex.Manager.NotifyForTxIns` | rpcwebsocket.go:1036-1069 | every client that watches a spent outpoint is notified once; in a block the outpoints stop being watched |
| `WatchIndex.Manager.NotifyForTxOuts` | rpcwebsocket.go:947-993 | every client paid is notified once and from then on watches the outputs that paid it; of each pool transaction that spends such an output exactly the clients are told that watch one of its inputs by then |
| `Rescan.ExactForm` | rpcwebsocket.go:2244-2383 | a rescan leaves what was there or was paid in the segment without what was spent in it, exactly if no output that was paid for good is spent by the paying transaction or an earlier one |
| `Rescan.AfterAllMeans` | rpcwebsocket.go:2244-2383 | an output is left exactly if it was there and never spent, or was paid and not spent after that |
| `Rescan.ClosedForm` | rpcwebsocket.go:2244-2383 | the closed form holds on every segment in which outputs are spent after they appear |
| `Rescan.OutOfOrder` | rpcwebsocket.go:2244-2383 | a segment that spends an output before it appears, for which the closed form fails |
| `Rescan.AtMostOnce` | rpcwebsocket.go:2252-2257 | each transaction is announced at most once as a spend and once as a payment |
| `Rescan.RescanInputs` | rpcwebsocket.go:2275-2336 | spent outpoints are dropped and one notification is due if any input is the client's |
| `Rescan.RescanOutputs` | rpcwebsocket.go:2338-2381 | outputs to watched addresses are kept and one notification is due if there is any |
| `Rescan.RescanBlocks` | rpcwebsocket.go:2244-2383 | the whole segment is scanned, or the scan stops with exactly the notifications that went out before the client quit |
| `DrawTickets.OneOwner` | blockchain/tape.go:98-111 | no position has two owners, and none at or beyond the total has one |
| `DrawTickets.FairShare` | blockchain/tape.go:38-41 | of the positions of the tape a wallet owns exactly as many as it has tokens |
| `DrawTickets.BuildSortedDepositList` | blockchain/tape.go:77-95 | the ranges of the sorted stakes lie one after the other |
| `DrawTickets.SortFacts` | blockchain/tape.go:77-83 | sorting by wallet changes no total, no wallet's tokens and no tokens before a wallet |
| `DrawTickets.FindWinner` | blockchain/tape.go:98-111 | the binary search finds the range with the position exactly when it is below the total |
| `DrawTickets.RunDraw` | blockchain/tape.go:125-167 | the jackpot is won exactly when the drawn position is below the staked tokens, by its owner; prize and rollover add up to the pool; there is no result exactly when stakers hold no token |
| `DrawTickets.StakersFacts` | blockchain/drawqueries.go:208-235 | merging entries by wallet keeps every total and names no wallet twice |
| `DrawTickets.FetchDrawAllStakers` | blockchain/drawqueries.go:208-235 | the loops list wallets with their summed stakes in order of first appearance, without the jackpot's own |
| `DrawTickets.FetchWalletTokens` | blockchain/drawqueries.go:239-248 | the tokens of the wallet's entries |
| `DrawTickets.GetDrawTickets` | rpcserverdraw.go:610-655 | reports range, position and win as computed from the list in its order |
| `DrawTickets.RangesTile` | rpcserverdraw.go:624-632 | reported ranges lie one after the other, without gaps or overlaps, and have the size of the stake |
| `DrawTickets.ExactlyOneReported` | rpcserverdraw.go:634-655 | some wallet is reported as winner exactly on the positions below the total, and only one |
| `DrawTickets.ReportedShare` | rpcserverdraw.go:634-655 | each wallet is reported as winner on exactly its tokens of the positions |
| `DrawTickets.AgreeIffSorted` | rpcserverdraw.go:624-655 | the report agrees with the draw on every position exactly when wallets first appear in the order of their hashes |
| `DrawTickets.UnsortedDisagrees` | rpcserverdraw.go:624-655 | two wallets for which report and draw name different winners |

## Left out

- Block validation, script execution, proof of work, difficulty and checkpoints: their verdicts enter as parameters of the accept operations.
- `connectBestChain`, reorganization and the utxo cache: only the view-level connecting and disconnecting of blocks is modelled.
- Accept.BlockChain.ProcessBlock: a block that waits in the orphan pool is a flag, orphans that are tried again are steps of their own in `Process`, and of `blockExists` the model keeps the index.
- Accept.BlockChain.MaybeAcceptBlock: requires that a known parent has its data, which the comment at `blockchain/accept.go:18-19` makes the caller's duty and `ProcessBlock` checks.
- Compress.DecodeTxOut: what the code does after a length field that overflows 64 bits is one outcome, `Wrapped`, without detail.
- UtxoView.UtxoViewpoint.DisconnectTransactions: for entries without a height, promises nothing if view or database hold outputs under the hash of one of the block's transactions that this transaction did not make.
- CFCheckpt.AnswersAreDirect: assumes that no block hash is all zeroes, the value that marks unused cache entries; an error of the index as a whole is a lookup that finds nothing.
- CFCheckpt.IntervalBlockHashes: the interval is the constant that checkpoint requests use.
- Sharing of address records: an address record is a value in the index and buckets hold its key, so that two pointers to one record are one record by construction.
- `Connected`, `SetServices`, `GetAddress` and local addresses of the address manager: the first two change fields as `Attempt` does; the third ends only with probability one.
- The encoding of peers files as JSON, and the hashing key in them: a file is a value, and both managers of a restart share their rules.
- Ban lists, user agents, shutdown, connection manager calls, address updates and inventory relay of the peer handler: refusals enter as one flag.
- Blocking of full channels: a send that waits is a step not yet taken.
- JSON marshalling failures and the recovery of rescans from reorganizations.
- WatchIndex.Manager.NotifyForTxOuts: says who is told of pool transactions, not how often when several payments lead to the same one.
- VDF evaluation, draw settlement, pool balances and the other draw queries.
- Real locks, timers and database transactions beyond all-or-nothing.
