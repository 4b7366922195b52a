# A verified model of the EmHou/blockchain core

This project models the `blockchain` package of a small proof-of-work
blockchain written in Go. It covers:

- the transaction and its byte encoding;
- the proof-of-work target;
- the nonce search of `Block.Mine`;
- blocks and how transactions are added to them;
- the chain and its two ways of accepting a block;
- the node that broadcasts blocks and transactions to its peers and receives them over RPC.

Modules, one file each:

- `Primitives` (`primitives.dfy`): byte and integer types, and big-endian encoding. SHA-256 and the Merkle root are given as parameters (`Crypto`).
- `Pow` (`pow.dfy`): `blockchain/pow.go`. Holds the target, `ToHex`, `BlockDataToBytes`, and `Search`, the specification of the mining loop.
- `Transactions` (`transaction.dfy`): `blockchain/transaction.go`.
- `Blocks` (`block.dfy`): `blockchain/block.go`, plus `Mine` as a method of the `Block` class.
- `Chains` (`chain.dfy`): `blockchain/chain.go`. The `BlockChain` class keeps the invariant that consecutive blocks are linked by their hashes.
- `Nodes` (`connection.dfy`): `blockchain/connection.go`, plus `Block.AddTransaction`, which drives a block, the chain and the node together.

How stateful objects are modelled:

- Blocks, chains and nodes are classes whose methods update their fields in place, as the Go code does.
- Each method's contract ties the new state to a specification function of the old state:
  - `MinedHeader` and `MinedMisses` for mining;
  - `AddOne` for `Add`;
  - `AddBlockVerdict` and `ConsensusVerdict` for the chain;
  - `FanOut` for broadcasts;
  - `ConfigPeers` for the configuration reader.
- Lemmas prove what those functions mean.

What the lemmas prove:

- Mining stops at the first try whose hash is below the target, and a mined block is sealed. The first try uses the nonce the block already holds and later tries use the miss count, so only a search from nonce 0 finds the least such nonce. Mining a sealed block changes nothing.
- The target means twelve leading zero bits.
- The encodings round-trip.
- The chain accepts exactly the full blocks that link to its tip.
- A broadcast reaches exactly the connected peers.
- The configuration reader numbers the peers by their line in the file.

How Go constructs are modelled:

- A goroutine that is immediately waited for is a plain call.
- A remote call is recorded as an `RpcCall` value, in order, instead of being performed.
- `time.Now()` is a parameter (`now`).
- The configuration file is given as its lines.
- The package-level `max` is given to each operation that reads it.

## Model

| member | source | states |
|---|---|---|
| Pow.TargetIsPow2 | blockchain/pow.go:28-35 | the written-out target constant equals 2^(256 - difficulty) |
| Pow.NewPOW | blockchain/pow.go:28-35 | the new proof of work has target 1 << (256 - 12) |
| Pow.TargetIsTwelveZeroBits | blockchain/pow.go:79-86 | a 32-byte hash is below the target iff its first byte is 0 and its second is below 16 (twelve leading zero bits) |
| Pow.TwosComplement | blockchain/pow.go:37-45 | the unsigned bit pattern of an int64: itself when non-negative, plus 2^64 when negative, always below 2^64 |
| Pow.ToHex | blockchain/pow.go:37-45 | encoding an int64 yields exactly 8 bytes |
| Pow.ToHexRoundTrip | blockchain/pow.go:37-45 | decoding the 8 big-endian bytes gives back the int64 |
| Pow.FromHexRoundTrip | blockchain/pow.go:37-45 | every 8-byte string is the encoding of the int64 it decodes to |
| Pow.ToHexInjective | blockchain/pow.go:37-45 | two int64 values have the same encoding iff they are equal |
| Pow.AsInt64 | blockchain/pow.go:54 | int64(nonce) keeps the 64 bits of the uint64 nonce |
| Pow.BlockDataToBytes | blockchain/pow.go:49-60 | the hashed bytes are the parent hash, the Merkle root and 16 more bytes |
| Pow.BlockDataTail | blockchain/pow.go:49-60 | the nonce and the difficulty can be read back from the last 16 bytes |
| Pow.BlockDataNonceInjective | blockchain/pow.go:49-60 | over a fixed parent and root, two nonces give the same hashed bytes iff they are equal |
| Pow.SearchFindsFirstHit | blockchain/pow.go:65-99 | the search stops at the first try that meets the target, storing its nonce and hash; every earlier try missed; running out means every try missed |
| Pow.LeastNonceFromZero | blockchain/pow.go:69-95 | from nonce 0 the nonce found is the least nonce whose hash meets the target |
| Pow.SealedNonceIsKept | blockchain/pow.go:72-90 | a nonce that already meets the target is kept, with no misses, because the first try uses the block's current nonce |
| Pow.SearchAgainAfterSuccess | blockchain/pow.go:65-99 | searching again from the nonce found gives the same nonce and hash at once |
| Transactions.TransactionDataToBytes | blockchain/transaction.go:29-41 | the encoding is as long as the four fields together, with 8 bytes for the timestamp |
| Transactions.EncodingRoundTrip | blockchain/transaction.go:29-41 | given the sender and recipient lengths, the encoding splits back into the transaction |
| Transactions.SplitThenEncode | blockchain/transaction.go:29-41 | every successful split re-encodes to the bytes it came from |
| Transactions.EqualsIsFieldwise | blockchain/transaction.go:57-65 | Equals holds iff all four fields agree; it is reflexive and symmetric; equal transactions hash alike |
| Transactions.SenderRecipientBoundary | blockchain/transaction.go:29-41 | moving bytes between sender and recipient changes neither the encoding nor the hash |
| Transactions.BoundaryCollision | blockchain/transaction.go:29-54 | two distinct transactions ("ab","c") and ("a","bc") have the same hash |
| Transactions.EqualsTestCases | test.go:81-92 | t equals the identical t2 and differs from t3 |
| Blocks.LeafHashes | blockchain/block.go:203-214 | the Merkle library is given one content hash per listed transaction, in list order |
| Blocks.MinedHeaderIsSealed | blockchain/pow.go:65-99 | mining keeps the timestamp and parent hash; when it succeeds, the stored hash is the block's own hash and meets the target |
| Blocks.MiningSealedIsIdentity | blockchain/pow.go:65-99 | mining a sealed block leaves its header unchanged after zero misses |
| Blocks.MiningIsIdempotent | blockchain/pow.go:65-99 | mining again after a successful run changes nothing |
| Blocks.MiningIsDeterministic | blockchain/pow.go:49-60 | the result depends only on the parent hash, the Merkle root and the starting nonce, not on the timestamp |
| Blocks.AddAllFillsInOrder | blockchain/block.go:196-219 | successive Adds keep the list, take the offered transactions in order until max, and drop the rest |
| Blocks.AddsNeverExceedMax | blockchain/block.go:196-219 | from an empty block no sequence of Adds passes max; the first max offered are kept |
| Blocks.AddTestCase | test.go:200-207 | with max 1, the second transaction is not added |
| Blocks.Block.MakeBlock | blockchain/block.go:128-143 | a new block has the given parent, an empty hash, nonce 0 and no transactions |
| Blocks.Block.MakeAddBlock | blockchain/block.go:146-169 | a block rebuilt from the timestamp, parent, nonce and list given, with an empty hash |
| Blocks.Block.SetHash | blockchain/block.go:62-64 | only the hash changes |
| Blocks.Block.SetNonce | blockchain/block.go:70-72 | only the nonce changes |
| Blocks.Block.SetBlockParentHash | blockchain/block.go:270-272 | only the parent hash changes |
| Blocks.Block.CalculateHash | blockchain/block.go:100-109 | the block's hash is the hash of its current parent, Merkle root and nonce |
| Blocks.Block.Add | blockchain/block.go:196-219 | refuses (false) exactly a full block, leaving it unchanged; otherwise appends the transaction at the end |
| Blocks.Block.Mine | blockchain/pow.go:65-99 | the loop leaves the header given by the search specification, returns the miss count, and returns an all-zero 32-byte array |
| Blocks.MakeGenesisBlock | blockchain/block.go:174-191 | genesis has an empty parent and exactly max placeholder transactions, and is then mined |
| Blocks.GenesisInvariant | blockchain/block.go:174-191 | the mined genesis keeps its empty parent and, when mining succeeds, is sealed |
| Chains.AddBlockAcceptsExactly | blockchain/chain.go:73-91 | AddBlock accepts iff the block is full and its parent hash equals the tip's hash; a block that is not full is reported first |
| Chains.ConsensusChecksHashFirst | blockchain/chain.go:108-129 | a mined hash that differs from the announced one is rejected first; acceptance needs all three checks |
| Chains.AddBlockTestCases | test.go:230-268 | six of seven transactions are rejected; a full block on the tip is accepted; a full block with another parent is rejected |
| Chains.BlockChain.NewBlockChain | blockchain/chain.go:29-46 | the new chain holds only the mined genesis, which is root and genesis, and the chain is valid |
| Chains.BlockChain.Append | blockchain/chain.go:80-81 | appending a block that links to the tip keeps the chain linked and makes the block the tip |
| Chains.BlockChain.AddBlock | blockchain/chain.go:61-94 | the block is always mined; the verdict is AddBlockVerdict; on acceptance the block is appended as the new tip, otherwise the chain is unchanged; the chain stays linked |
| Chains.BlockChain.AddConsensusBlock | blockchain/chain.go:96-132 | as AddBlock, with the hash check against the announced hash made first |
| Nodes.TransactionArgRoundTrip | blockchain/connection.go:141-146 | the receiver rebuilds exactly the transaction the sender sent |
| Nodes.FanOut | blockchain/connection.go:116-134 | a broadcast makes at most one call per peer |
| Nodes.FanOutConcat | blockchain/connection.go:116-134 | calls follow the peer order: broadcasting to a + b is broadcasting to a, then to b |
| Nodes.FanOutReachesConnectedPeers | blockchain/connection.go:181-200 | every call carries the request to a connected listed peer, and every connected listed peer is called |
| Nodes.NoClientNoCall | blockchain/connection.go:117 | peers without an RPC client receive nothing |
| Nodes.BeforeConnectingNothingIsSent | blockchain/connection.go:268-269 | a node that has only read its configuration sends nothing |
| Nodes.ConfigPeersNumberTheOtherLines | blockchain/connection.go:251-293 | for an id in range, the peers are the other lines in order, each with its line index as serverID and no client; for a negative id, every serverID is one more than the line index |
| Nodes.AsWrittenAcceptsOnlySelfParentedTip | blockchain/connection.go:80-88 | with the tip's parent hash as the candidate's parent, a full block can be accepted only if the tip is its own parent |
| Nodes.GenesisOnlyReceiverRejects | blockchain/connection.go:80-88 | a node whose chain holds only a sealed genesis rejects every full block it receives |
| Nodes.AsWrittenRejectsSynchronizedBlock | blockchain/connection.go:80-88 | a block correctly mined on the receiver's own tip is rejected |
| Nodes.FromTipAcceptsSynchronizedBlock | blockchain/connection.go:80-88 | with the tip's hash as the parent, a full block sealed on the tip is accepted and rebuilt with the sender's exact header |
| Nodes.Node.MakeNode | blockchain/connection.go:209-215 | the node has its id, a self entry with that serverID, and no peers, block or chain |
| Nodes.Node.SendBlock | blockchain/connection.go:108-135 | one ReceiveBlock call per connected peer, in order, with the block's nonce, timestamp, hash and list |
| Nodes.Node.SendTransaction | blockchain/connection.go:171-201 | one ReceiveTransaction call per connected peer, in order, stamped with the timestamp of the block being filled |
| Nodes.Node.Broadcast | blockchain/connection.go:116-134 | the peer loop yields exactly FanOut over the peer list |
| Nodes.Node.SaveSkeleton | blockchain/connection.go:71-75 | an announced empty block becomes the block being filled, under the announced hash as parent; the reply stays false |
| Nodes.Node.AcceptFullBlock | blockchain/connection.go:77-101 | the rebuilt candidate is accepted iff the consensus verdict is Added; then it is the new tip and the pending block is dropped; otherwise chain and block are unchanged |
| Nodes.Node.ReceiveBlock | blockchain/connection.go:69-105 | skeleton or full block, dispatched on nonce 0 and an empty list, with the tip's parent hash as the candidate's parent |
| Nodes.Node.ReceiveBlockFromTip | blockchain/connection.go:69-105 | as ReceiveBlock, with the tip's hash as the candidate's parent |
| Nodes.Node.ReceiveTransaction | blockchain/connection.go:139-168 | makes a block on genesis when the chain holds only genesis and there is none; then adds the transaction; the reply is whether Add accepted it |
| Nodes.Node.ReadClusterConfig | blockchain/connection.go:251-293 | the node's own line becomes its address (serverID 0); the peers are ConfigPeers of the lines |
| Nodes.CloseBlock | blockchain/block.go:229-256 | the transaction is added, the block mined, and appended iff it links to the tip; the block and then a new empty block on its hash are broadcast |
| Nodes.AnnounceClosedBlock | blockchain/block.go:241-256 | broadcasts the closed block, then the node's new empty block, whose parent is the closed block's hash |
| Nodes.AnnouncedSkeletonHasEmptyParent | blockchain/block.go:249-253 | the new empty block is announced with its own, still empty, hash; the receiver's pending block then has an empty parent and never links to a sealed tip |
| Nodes.SkeletonWithParentLinks | blockchain/connection.go:71-75 | announced by its parent hash, the empty block becomes a pending block on the closed block, which once full and mined links to that tip |
| Nodes.AddTransaction | blockchain/block.go:225-265 | a block over max is left alone; the transaction that fills the block closes it; otherwise it is added (or refused) and broadcast |

## Left out

- SHA-256 and the Merkle tree library are parameters (`Crypto`). Their internals, tree rebuilding and `VerifyTree` are not modelled. A block's `data` tree is modelled by the root it yields over the list (`MerkleRootOf`).
- The chain-level Merkle tree (`BlockChain.chain`) and `RunVerification`, which re-verifies it on a timer, are not modelled. They are concurrency and library code.
- `ConnectNodes`, the HTTP server and the actual `rpc.Call` are network I/O and are not modelled. A broadcast returns the list of calls it makes. Replies are not modelled, and neither is the receiver's side of a call.
- Mutexes and wait groups are not modelled. Each goroutine is waited for at once, so the model makes a plain call instead.
- Printing and the `String` methods are output only and are not modelled. Neither is `NodeChainToString`.
- `Block.Equals` is not modelled: it compares tree pointers, and the model has no tree objects.
- `TestPOW` and `TestPrintMine` are test helpers and are not modelled. `TestPrintMine` is `Mine` with printing.
- `GetData` returns the tree pointer, and the model has no tree objects, so it is not modelled.
- `ResetDataList` empties the list without rebuilding the tree. Nothing in the package calls it, so it is not modelled.
- `SetMax` and `GetMax` are replaced by a `max` parameter on each operation that reads the package variable.
- `time.Now().UnixNano()` is a parameter `now`.
- The configuration file is its list of lines. Failures to open or read the file (`log.Fatal`) are not modelled.
- Nil checks on hashes (`block.GetHash() != nil && rootHash != nil`) are not modelled. Hashes are byte sequences, and every hash the chain compares is non-nil in Go, so the checks always pass.
- In ReceiveBlock, `args.DataList == nil` is modelled as an empty list. A new block is made with an empty, non-nil list, and the RPC encoding transmits an empty slice as nil, so every empty list arrives as nil.
- Nil and empty byte strings are one value (`[]`) throughout. `reflect.DeepEqual` in `Transaction.Equals` tells them apart, so Transactions.Equals identifies two transactions Go would call different when one field is nil and the other empty. Nothing in the modelled code calls Equals.
- Blocks.Block.Mine: the guard is written `MeetsTarget(hash)`, the hash read as a big-endian number compared with the target. That is the same comparison as `intHash.Cmp(block.GetTarget()) == -1`, since `GetTarget()` is the fixed target.
- Blocks.Block.Mine requires a non-empty list. In Go a block without transactions has no tree and hashing it panics.
- Blocks.Block.CalculateHash and Blocks.Block.BlockDataToBytes require a non-empty list, for the same reason.
- Chains.BlockChain.AddBlock and Chains.BlockChain.AddConsensusBlock require a non-empty list, because they mine it. They also require that the candidate is not already on the chain, which holds at every call site.
- Chains.BlockChain.AddConsensusBlock merges "block is not full" and "block hash does not match root hash or does not exist" with AddBlock's wording of the same errors into one `ChainError`; only which check failed is kept.
- Nodes.Node.ReceiveBlock and Nodes.Node.ReceiveBlockFromTip require, for a full block, a local chain and a non-empty list. Go dereferences the chain and hashes the list there, and would panic without them.
- Nodes.Node.ReceiveTransaction requires a block to add to, or a chain holding only genesis. Otherwise Go calls Add on a nil block and panics.
- Nodes.AddTransaction requires the node to have a block when it broadcasts a transaction. SendTransaction reads that block's timestamp and panics on nil.
- Blocks.GenesisInvariant states sealing only when the search succeeds. Running out of all 2^63 - 1 nonces is not ruled out, because that would need a property of SHA-256.
- The Go AddTransaction's calls to `Add` for the filling transaction and to `chain.AddBlock` ignore their errors; the model ignores them too.

## Findings

| source | as written | input that shows it | evidently intended | confidence | as-written member | corrected member |
|---|---|---|---|---|---|---|
| blockchain/connection.go:80 | the candidate rebuilt from a received full block takes the PARENT hash of the local tip as its parent, so AddConsensusBlock's link check (parent == tip hash) passes only for a tip that is its own parent | a node whose chain is a sealed genesis (parent empty, hash 32 bytes) receiving any full block; or any receiver whose tip is the block the sender mined on | the candidate takes the local tip's hash, the parent the sender mined on | not executed | Nodes.Node.ReceiveBlock, Nodes.AsWrittenRejectsSynchronizedBlock, Nodes.GenesisOnlyReceiverRejects | Nodes.Node.ReceiveBlockFromTip, Nodes.FromTipAcceptsSynchronizedBlock |
| blockchain/block.go:249-253 | the new empty block is announced by SendBlock, which sends the block's own hash; that hash is still empty, and the receiver (connection.go:73) takes it as the pending block's parent | any node receiving the announcement that follows a closed block: its pending block has parent [] while its tip's hash is a 32-byte digest | the announcement carries the hash the new block is built on, the closed block's hash | not executed | Nodes.AnnounceClosedBlock, Nodes.AnnouncedSkeletonHasEmptyParent | Nodes.SkeletonArgOf, Nodes.SkeletonWithParentLinks |
