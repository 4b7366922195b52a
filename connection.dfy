/** blockchain/connection.go: a node of the network, its view of its
    peers, the two outgoing broadcasts (SendBlock, SendTransaction), the two
    RPC handlers (ReceiveBlock, ReceiveTransaction) and the cluster
    configuration reader; plus Block.AddTransaction from blockchain/block.go,
    which drives a block, the chain and the node together.

    A remote call is not performed: a broadcast returns the calls it would
    make, in order, as RpcCall values. */
module Nodes {
  import opened Primitives
  import opened Pow
  import opened Transactions
  import opened Blocks
  import opened Chains

  /** An RPC client is an opaque handle; only whether there is one matters. */
  type ClientHandle = nat

  datatype ServerConnection = ServerConnection(serverID: int, address: string, rpcConnection: Option<ClientHandle>)

  /** What a peer receives of a block: nonce, timestamp, hash and the list. */
  datatype BlockArg = BlockArg(nonce: uint64, timestamp: int64, hash: Bytes, dataList: seq<Transaction>)

  /** What a peer receives of a transaction, with the timestamp of the block
      the sender is filling. */
  datatype TransactionArg = TransactionArg(sender: Bytes, recipient: Bytes, timestamp: int64, data: Bytes, blockTimestamp: int64)

  datatype Request = BlockRequest(blockArg: BlockArg) | TransactionRequest(transactionArg: TransactionArg)

  /** One remote call "Node.ReceiveBlock" or "Node.ReceiveTransaction". */
  datatype RpcCall = RpcCall(peer: ServerConnection, request: Request)

  function BlockArgOf(h: BlockHeader, list: seq<Transaction>): BlockArg
  {
    BlockArg(h.nonce, h.timestamp, h.hash, list)
  }

  function TransactionArgOf(t: Transaction, blockTimestamp: int64): TransactionArg
  {
    TransactionArg(t.sender, t.recipient, t.timestamp, t.data, blockTimestamp)
  }

  /** The transaction ReceiveTransaction rebuilds from its argument. */
  function TransactionOf(a: TransactionArg): Transaction
  {
    Transaction(a.sender, a.recipient, a.timestamp, a.data)
  }

  /** The receiver rebuilds exactly the transaction that was sent. */
  lemma TransactionArgRoundTrip(t: Transaction, blockTimestamp: int64)
    ensures TransactionOf(TransactionArgOf(t, blockTimestamp)) == t
    ensures TransactionArgOf(t, blockTimestamp).blockTimestamp == blockTimestamp
  {
  }

  // ---------------------------------------------------------------------
  // Broadcast
  // ---------------------------------------------------------------------

  /** The calls a broadcast makes: one per peer that has a client, in the
      order of the peer list; a peer without a client is skipped. */
  function FanOut(peers: seq<ServerConnection>, request: Request): (calls: seq<RpcCall>)
    ensures |calls| <= |peers|
  {
    if peers == [] then []
    else
      var last := peers[|peers| - 1];
      FanOut(peers[..|peers| - 1], request) + (if last.rpcConnection.Some? then [RpcCall(last, request)] else [])
  }

  /** Broadcasting to two lists one after the other is broadcasting to their
      concatenation: the calls follow the peer order. */
  lemma {:induction false} FanOutConcat(a: seq<ServerConnection>, b: seq<ServerConnection>, request: Request)
    ensures FanOut(a + b, request) == FanOut(a, request) + FanOut(b, request)
    decreases |b|
  {
    if b == [] {
      assert a + b == a;
    } else {
      var b' := b[..|b| - 1];
      assert (a + b)[..|a + b| - 1] == a + b';
      FanOutConcat(a, b', request);
    }
  }

  /** Every call carries the request and goes to a connected peer of the list,
      and every connected peer of the list is called. */
  lemma {:induction false} FanOutReachesConnectedPeers(peers: seq<ServerConnection>, request: Request)
    ensures forall call :: call in FanOut(peers, request) ==>
      call.request == request && call.peer in peers && call.peer.rpcConnection.Some?
    ensures forall p :: p in peers && p.rpcConnection.Some? ==> RpcCall(p, request) in FanOut(peers, request)
  {
    if peers != [] {
      var init := peers[..|peers| - 1];
      FanOutReachesConnectedPeers(init, request);
      assert peers == init + [peers[|peers| - 1]];
    }
  }

  /** Peers without a client receive nothing. */
  lemma {:induction false} NoClientNoCall(peers: seq<ServerConnection>, request: Request)
    requires forall k :: 0 <= k < |peers| ==> peers[k].rpcConnection.None?
    ensures FanOut(peers, request) == []
  {
    if peers != [] {
      NoClientNoCall(peers[..|peers| - 1], request);
    }
  }

  /** A freshly configured node, whose peers have no client yet, makes no call. */
  lemma BeforeConnectingNothingIsSent(lines: seq<string>, id: int, request: Request)
    ensures FanOut(ConfigPeers(lines, id), request) == []
  {
    NoClientNoCall(ConfigPeers(lines, id), request);
  }

  // ---------------------------------------------------------------------
  // The cluster configuration
  // ---------------------------------------------------------------------

  /** The line of the configuration the k-th peer comes from: the node's own
      line is skipped. */
  function LineOf(k: nat, id: int): nat
  {
    if 0 <= id && k >= id then k + 1 else k
  }

  /** The serverID ReadClusterConfig gives the k-th peer. */
  function PeerServerID(k: nat, id: int): int
  {
    if k >= id then k + 1 else k
  }

  /** Where the peer for line j sits in the peer list of node `id`. */
  function PeerIndexOf(j: nat, id: int): nat
  {
    if 0 <= id < j then j - 1 else j
  }

  /** The peer list ReadClusterConfig builds from the lines of the file for
      node `id`: every line but the id-th, in order, with no client. */
  function ConfigPeers(lines: seq<string>, id: int): seq<ServerConnection>
  {
    var n := if 0 <= id < |lines| then |lines| - 1 else |lines|;
    seq(n, k requires 0 <= k < n => ServerConnection(PeerServerID(k, id), lines[LineOf(k, id)], None))
  }

  /** For a node id in range, the peers are the other lines, each with its
      line index as serverID, none with the node's own id; every other line
      becomes a peer. For a negative id every line becomes a peer, but each
      serverID is one more than its line index. */
  lemma ConfigPeersNumberTheOtherLines(lines: seq<string>, id: int)
    ensures |ConfigPeers(lines, id)| == if 0 <= id < |lines| then |lines| - 1 else |lines|
    ensures forall k :: 0 <= k < |ConfigPeers(lines, id)| ==> ConfigPeers(lines, id)[k].rpcConnection.None?
    ensures 0 <= id ==> forall k :: 0 <= k < |ConfigPeers(lines, id)| ==>
      var p := ConfigPeers(lines, id)[k];
      0 <= p.serverID < |lines| && p.serverID != id && p.address == lines[p.serverID]
    ensures 0 <= id ==> forall j :: 0 <= j < |lines| && j != id ==>
      PeerIndexOf(j, id) < |ConfigPeers(lines, id)| && ConfigPeers(lines, id)[PeerIndexOf(j, id)] == ServerConnection(j, lines[j], None)
    ensures id < 0 ==> forall k :: 0 <= k < |ConfigPeers(lines, id)| ==>
      ConfigPeers(lines, id)[k] == ServerConnection(k + 1, lines[k], None)
  {
    var peers := ConfigPeers(lines, id);
    if 0 <= id {
      forall j | 0 <= j < |lines| && j != id
        ensures PeerIndexOf(j, id) < |peers| && peers[PeerIndexOf(j, id)] == ServerConnection(j, lines[j], None)
      {
        var k := PeerIndexOf(j, id);
        assert LineOf(k, id) == j && PeerServerID(k, id) == j;
      }
    }
  }

  // ---------------------------------------------------------------------
  // What ReceiveBlock decides
  // ---------------------------------------------------------------------

  /** An argument with nonce 0 and no transactions announces the next, still
      empty, block. */
  predicate IsSkeleton(args: BlockArg)
  {
    args.nonce == 0 && args.dataList == []
  }

  /** The verdict on a full block received while the local tip has hash
      `tipHash`, when the rebuilt candidate is given parent `parentHash`: the
      candidate is mined from the received nonce, then AddConsensusBlock's
      checks are made against the received hash. */
  function FullBlockVerdict(c: Crypto, max: nat, parentHash: Bytes, tipHash: Bytes, args: BlockArg): AddResult
  {
    var mined := MinedHeader(c, BlockHeader(args.timestamp, parentHash, [], args.nonce), args.dataList);
    ConsensusVerdict(max, mined.hash, args.hash, |args.dataList|, mined.parentBlockHash, tipHash)
  }

  /** As written, the candidate's parent is the tip's own parent hash, so the
      link check can pass only on a tip that is its own parent. */
  lemma AsWrittenAcceptsOnlySelfParentedTip(c: Crypto, max: nat, tip: BlockHeader, args: BlockArg)
    ensures FullBlockVerdict(c, max, tip.parentBlockHash, tip.hash, args) == Added ==> tip.parentBlockHash == tip.hash
  {
    MinedHeaderIsSealed(c, BlockHeader(args.timestamp, tip.parentBlockHash, [], args.nonce), args.dataList);
  }

  /** A node whose chain is still a genesis block that mining sealed rejects
      every full block it receives: the genesis parent hash is empty and its
      hash is a 32-byte digest. */
  lemma GenesisOnlyReceiverRejects(c: Crypto, max: nat, now: int64, args: BlockArg)
    requires DigestsAre32Bytes(c)
    requires max >= 1
    requires MineOf(c, BlockHeader(now, [], [], 0), seq(max, _ => Placeholder())).Found?
    ensures var genesis := MinedHeader(c, BlockHeader(now, [], [], 0), seq(max, _ => Placeholder()));
            FullBlockVerdict(c, max, genesis.parentBlockHash, genesis.hash, args) != Added
  {
    var start := BlockHeader(now, [], [], 0);
    var list := seq(max, _ => Placeholder());
    var genesis := MinedHeader(c, start, list);
    MinedHeaderIsSealed(c, start, list);
    assert |genesis.hash| == 32;
    AsWrittenAcceptsOnlySelfParentedTip(c, max, genesis, args);
  }

  /** A block sealed on top of a tip whose parent differs from its hash is
      rejected by a receiver whose tip is that same block: the as-written
      ReceiveBlock cannot replicate a correctly mined block. */
  lemma AsWrittenRejectsSynchronizedBlock(c: Crypto, max: nat, tip: BlockHeader, h: BlockHeader, list: seq<Transaction>)
    requires Sealed(c, h, list) && h.parentBlockHash == tip.hash
    requires tip.parentBlockHash != tip.hash
    ensures FullBlockVerdict(c, max, tip.parentBlockHash, tip.hash, BlockArgOf(h, list)) != Added
  {
    AsWrittenAcceptsOnlySelfParentedTip(c, max, tip, BlockArgOf(h, list));
  }

  /** With the tip's own hash as the candidate's parent, a full block sealed on
      top of the receiver's tip is accepted, and the receiver's copy has the
      sender's header: same timestamp, parent, nonce and hash. */
  lemma FromTipAcceptsSynchronizedBlock(c: Crypto, max: nat, tipHash: Bytes, h: BlockHeader, list: seq<Transaction>)
    requires Sealed(c, h, list) && h.parentBlockHash == tipHash
    requires |list| >= max
    ensures var args := BlockArgOf(h, list);
            && MinedHeader(c, BlockHeader(args.timestamp, tipHash, [], args.nonce), list) == h
            && FullBlockVerdict(c, max, tipHash, tipHash, args) == Added
  {
    var candidate := BlockHeader(h.timestamp, tipHash, [], h.nonce);
    SealedNonceIsKept(TriesOf(c, candidate, list), h.nonce);
    assert MineOf(c, candidate, list) == Found(h.nonce, h.hash, 0);
  }

  // ---------------------------------------------------------------------
  // What the announcement of a new empty block carries
  // ---------------------------------------------------------------------

  /** The header of the empty block a node starts after closing a block whose
      hash is `closedHash`. */
  function NextEmptyHeader(now: int64, closedHash: Bytes): BlockHeader
  {
    BlockHeader(now, closedHash, [], 0)
  }

  /** The header of the block a receiver ends up mining from the skeleton it
      saved for `args`, once filled with `list`. */
  function MinedFromSkeleton(c: Crypto, args: BlockArg, list: seq<Transaction>): BlockHeader
  {
    MinedHeader(c, BlockHeader(args.timestamp, args.hash, [], 0), list)
  }

  /** As written, the announced empty block carries its own hash, which is
      still empty, so the receiver parents its pending block on the empty
      hash; once the receiver's tip is a sealed block, that pending block,
      however it is filled and mined, fails the link check. */
  lemma AnnouncedSkeletonHasEmptyParent(c: Crypto, max: nat, now: int64, closed: BlockHeader, closedList: seq<Transaction>, list: seq<Transaction>)
    requires DigestsAre32Bytes(c)
    requires Sealed(c, closed, closedList)
    ensures BlockArgOf(NextEmptyHeader(now, closed.hash), []).hash == []
    ensures var pending := MinedFromSkeleton(c, BlockArgOf(NextEmptyHeader(now, closed.hash), []), list);
            && pending.parentBlockHash == []
            && AddBlockVerdict(max, |list|, pending.parentBlockHash, closed.hash) != Added
  {
    MinedHeaderIsSealed(c, BlockHeader(now, [], [], 0), list);
    assert |closed.hash| == 32;
  }

  /** The announcement a receiver can build on: the empty block's parent hash
      in the hash field, which SaveSkeleton takes as the parent. */
  function SkeletonArgOf(h: BlockHeader): BlockArg
  {
    BlockArg(h.nonce, h.timestamp, h.parentBlockHash, [])
  }

  /** Announcing the new empty block by its parent, the receiver's pending
      block sits on the closed block, and once full and mined it links to a
      tip that is the closed block. */
  lemma SkeletonWithParentLinks(c: Crypto, max: nat, now: int64, closedHash: Bytes, list: seq<Transaction>)
    requires |list| >= max
    ensures IsSkeleton(SkeletonArgOf(NextEmptyHeader(now, closedHash)))
    ensures var pending := MinedFromSkeleton(c, SkeletonArgOf(NextEmptyHeader(now, closedHash)), list);
            && pending.parentBlockHash == closedHash
            && AddBlockVerdict(max, |list|, pending.parentBlockHash, closedHash) == Added
  {
    MinedHeaderIsSealed(c, BlockHeader(now, closedHash, [], 0), list);
  }

  // ---------------------------------------------------------------------
  // The node
  // ---------------------------------------------------------------------

  class Node {
    var id: int
    var self: ServerConnection
    var peerNodes: seq<ServerConnection>
    /** The block being filled; not yet on the chain. */
    var block: Block?
    var localChain: BlockChain?

    /** The node has a valid local chain, and the block it fills is not on it. */
    ghost predicate Valid()
      reads this, localChain, if localChain != null then localChain.blockList else []
    {
      && localChain != null
      && localChain.Valid()
      && (block != null ==> block !in localChain.blockList)
    }

    /** MakeNode: a node with the given id and no address, peers, block or chain. */
    constructor MakeNode(i: int)
      ensures id == i && self == ServerConnection(i, "", None)
      ensures peerNodes == [] && block == null && localChain == null
    {
      id := i;
      self := ServerConnection(i, "", None);
      peerNodes := [];
      block := null;
      localChain := null;
    }

    function GetSelfAddress(): string reads this { self.address }

    /** SendBlock: one ReceiveBlock call per connected peer, in peer order,
        carrying the block's nonce, timestamp, hash and list. */
    method SendBlock(b: Block) returns (calls: seq<RpcCall>)
      ensures calls == FanOut(peerNodes, BlockRequest(BlockArgOf(b.header, b.dataList)))
    {
      var arg := BlockArg(b.GetNonce(), b.GetTimestamp(), b.GetHash(), b.GetDataList());
      calls := Broadcast(BlockRequest(arg));
    }

    /** SendTransaction: one ReceiveTransaction call per connected peer, in
        peer order, stamped with the timestamp of the block being filled. */
    method SendTransaction(transaction: Transaction) returns (calls: seq<RpcCall>)
      requires block != null
      ensures calls == FanOut(peerNodes, TransactionRequest(TransactionArgOf(transaction, block.header.timestamp)))
    {
      var arg := TransactionArg(transaction.sender, transaction.recipient, transaction.timestamp, transaction.data,
                                block.GetTimestamp());
      calls := Broadcast(TransactionRequest(arg));
    }

    /** The loop over the peers shared by both broadcasts. */
    method Broadcast(request: Request) returns (calls: seq<RpcCall>)
      ensures calls == FanOut(peerNodes, request)
    {
      calls := [];
      for i := 0 to |peerNodes|
        invariant calls == FanOut(peerNodes[..i], request)
      {
        var peer := peerNodes[i];
        assert peerNodes[..i + 1][..i] == peerNodes[..i];
        if peer.rpcConnection.Some? {
          calls := calls + [RpcCall(peer, request)];
        }
      }
      assert peerNodes[..|peerNodes|] == peerNodes;
    }

    /** ReceiveBlock's first branch: the announced empty block becomes the block
        being filled, under the announced hash as parent. The reply stays false. */
    method SaveSkeleton(args: BlockArg) returns (success: bool)
      requires IsSkeleton(args)
      modifies this
      ensures !success
      ensures fresh(block) && block.header == BlockHeader(args.timestamp, args.hash, [], 0) && block.dataList == []
      ensures id == old(id) && self == old(self) && peerNodes == old(peerNodes) && localChain == old(localChain)
      ensures old(Valid()) ==> Valid()
    {
      block := new Block.MakeAddBlock(args.timestamp, args.hash, args.nonce, args.dataList);
      success := false;
    }

    /** ReceiveBlock's second branch with the candidate's parent given: the
        candidate is rebuilt from the argument, and AddConsensusBlock mines and
        checks it; on success it is the new tip and the block being filled is
        dropped. */
    method AcceptFullBlock(args: BlockArg, parentHash: Bytes, c: Crypto, max: nat) returns (success: bool)
      requires Valid()
      requires |args.dataList| > 0
      modifies this, localChain
      ensures Valid()
      ensures id == old(id) && self == old(self) && peerNodes == old(peerNodes) && localChain == old(localChain)
      ensures localChain.genesis == old(localChain.genesis)
      ensures success == (FullBlockVerdict(c, max, parentHash, old(localChain.root.header.hash), args) == Added)
      ensures success ==>
        && localChain.blockList == old(localChain.blockList) + [localChain.root]
        && fresh(localChain.root)
        && localChain.root.header == MinedHeader(c, BlockHeader(args.timestamp, parentHash, [], args.nonce), args.dataList)
        && localChain.root.dataList == args.dataList
        && block == null
      ensures !success ==>
        localChain.blockList == old(localChain.blockList) && localChain.root == old(localChain.root) && block == old(block)
    {
      var addBlock := new Block.MakeAddBlock(args.timestamp, parentHash, args.nonce, args.dataList);
      var result := localChain.AddConsensusBlock(addBlock, args.hash, c, max);
      MinedHeaderIsSealed(c, BlockHeader(args.timestamp, parentHash, [], args.nonce), args.dataList);
      if result.Rejected? {
        success := false;
      } else {
        block := null;
        success := true;
      }
    }

    /** ReceiveBlock, as written: the candidate for a full block takes the
        PARENT hash of the local tip as its parent. A full block needs its
        transaction tree, hence a non-empty list there. */
    method ReceiveBlock(args: BlockArg, c: Crypto, max: nat) returns (success: bool)
      requires !IsSkeleton(args) ==> Valid() && |args.dataList| > 0
      modifies this, localChain
      ensures id == old(id) && self == old(self) && peerNodes == old(peerNodes) && localChain == old(localChain)
      ensures IsSkeleton(args) ==>
        && !success
        && fresh(block) && block.header == BlockHeader(args.timestamp, args.hash, [], 0) && block.dataList == []
        && (old(Valid()) ==> Valid() && localChain.blockList == old(localChain.blockList) && localChain.root == old(localChain.root))
      ensures !IsSkeleton(args) ==>
        var tip := old(localChain.root.header);
        && Valid()
        && success == (FullBlockVerdict(c, max, tip.parentBlockHash, tip.hash, args) == Added)
        && (success ==>
              && localChain.blockList == old(localChain.blockList) + [localChain.root]
              && fresh(localChain.root)
              && localChain.root.header == MinedHeader(c, BlockHeader(args.timestamp, tip.parentBlockHash, [], args.nonce), args.dataList)
              && localChain.root.dataList == args.dataList
              && block == null)
        && (!success ==> localChain.blockList == old(localChain.blockList) && block == old(block))
    {
      if args.nonce == 0 && args.dataList == [] {
        success := SaveSkeleton(args);
      } else {
        var parentBlockHash := localChain.GetRoot().GetParentBlockHash();
        success := AcceptFullBlock(args, parentBlockHash, c, max);
      }
    }

    /** ReceiveBlock corrected: the candidate takes the local tip's hash as its
        parent, as a block mined on top of that tip has. */
    method ReceiveBlockFromTip(args: BlockArg, c: Crypto, max: nat) returns (success: bool)
      requires !IsSkeleton(args) ==> Valid() && |args.dataList| > 0
      modifies this, localChain
      ensures id == old(id) && self == old(self) && peerNodes == old(peerNodes) && localChain == old(localChain)
      ensures IsSkeleton(args) ==>
        && !success
        && fresh(block) && block.header == BlockHeader(args.timestamp, args.hash, [], 0) && block.dataList == []
        && (old(Valid()) ==> Valid() && localChain.blockList == old(localChain.blockList) && localChain.root == old(localChain.root))
      ensures !IsSkeleton(args) ==>
        var tipHash := old(localChain.root.header.hash);
        && Valid()
        && success == (FullBlockVerdict(c, max, tipHash, tipHash, args) == Added)
        && (success ==>
              && localChain.blockList == old(localChain.blockList) + [localChain.root]
              && fresh(localChain.root)
              && localChain.root.header == MinedHeader(c, BlockHeader(args.timestamp, tipHash, [], args.nonce), args.dataList)
              && localChain.root.dataList == args.dataList
              && block == null)
        && (!success ==> localChain.blockList == old(localChain.blockList) && block == old(block))
    {
      if args.nonce == 0 && args.dataList == [] {
        success := SaveSkeleton(args);
      } else {
        var tipHash := localChain.GetRoot().GetHash();
        success := AcceptFullBlock(args, tipHash, c, max);
      }
    }

    /** ReceiveTransaction: a node whose chain holds only genesis and that has
        no block yet first makes one, stamped with the sender's block timestamp
        and parented on genesis; the transaction is then added to the block
        being filled. The reply reports whether Add accepted it. */
    method ReceiveTransaction(args: TransactionArg, max: nat) returns (success: bool)
      requires Valid()
      requires block != null || |localChain.blockList| == 1
      modifies this, block
      ensures Valid()
      ensures id == old(id) && self == old(self) && peerNodes == old(peerNodes) && localChain == old(localChain)
      ensures block != null
      ensures old(block) == null ==>
        && fresh(block)
        && block.header == BlockHeader(args.blockTimestamp, localChain.genesis.header.hash, [], 0)
        && block.dataList == AddOne([], TransactionOf(args), max)
        && (success <==> 0 < max)
      ensures old(block) != null ==>
        && block == old(block)
        && block.header == old(block.header)
        && block.dataList == AddOne(old(block.dataList), TransactionOf(args), max)
        && (success <==> |old(block.dataList)| < max)
    {
      var newTransaction := Transaction(args.sender, args.recipient, args.timestamp, args.data);
      if localChain.GetBlockListLen() == 1 && block == null {
        block := new Block.MakeAddBlock(args.blockTimestamp, localChain.genesis.GetHash(), 0, []);
      }
      success := block.Add(newTransaction, max);
    }

    /** ReadClusterConfig over the lines of the configuration file: the node's
        own line (the id-th) becomes its address, with serverID 0; every other
        line becomes a peer without a client; then the peers are numbered. */
    method ReadClusterConfig(lines: seq<string>)
      modifies this
      ensures peerNodes == ConfigPeers(lines, id)
      ensures self == if 0 <= id < |lines| then ServerConnection(0, lines[id], None) else old(self)
      ensures id == old(id) && block == old(block) && localChain == old(localChain)
    {
      var nodeIndex := id;
      var peers: seq<ServerConnection> := [];
      var index := 0;
      while index < |lines|
        invariant 0 <= index <= |lines|
        invariant id == nodeIndex && block == old(block) && localChain == old(localChain)
        invariant |peers| == if 0 <= nodeIndex < index then index - 1 else index
        invariant forall k :: 0 <= k < |peers| ==>
          LineOf(k, nodeIndex) < index && peers[k] == ServerConnection(0, lines[LineOf(k, nodeIndex)], None)
        invariant self == if 0 <= nodeIndex < index then ServerConnection(0, lines[nodeIndex], None) else old(self)
      {
        var line := lines[index];
        if index != nodeIndex {
          peers := peers + [ServerConnection(0, line, None)];
        } else {
          self := ServerConnection(0, line, None);
        }
        index := index + 1;
      }
      ghost var n := |peers|;
      for i := 0 to |peers|
        invariant |peers| == n
        invariant forall k :: 0 <= k < |peers| ==>
          LineOf(k, nodeIndex) < |lines| &&
          peers[k] == ServerConnection(if k < i then PeerServerID(k, nodeIndex) else 0, lines[LineOf(k, nodeIndex)], None)
      {
        if i >= nodeIndex {
          peers := peers[i := peers[i].(serverID := i + 1)];
        } else {
          peers := peers[i := peers[i].(serverID := i)];
        }
      }
      peerNodes := peers;
    }
  }

  // ---------------------------------------------------------------------
  // Block.AddTransaction
  // ---------------------------------------------------------------------

  /** The branch of Block.AddTransaction for the transaction that fills the
      block: it is added, the chain mines the block and tries to add it (its
      error is ignored), the block is broadcast, and the node starts a new
      empty block on top of the block's hash, which is broadcast too. */
  method CloseBlock(block: Block, transaction: Transaction, chain: BlockChain, node: Node, c: Crypto, max: nat, now: int64)
    returns (calls: seq<RpcCall>)
    requires chain.Valid()
    requires block !in chain.blockList
    requires |block.dataList| + 1 == max
    modifies block, chain, node
    ensures chain.Valid() && chain.genesis == old(chain.genesis)
    ensures node.id == old(node.id) && node.self == old(node.self) && node.peerNodes == old(node.peerNodes)
    ensures node.localChain == old(node.localChain)
    ensures block.dataList == old(block.dataList) + [transaction]
    ensures block.header == MinedHeader(c, old(block.header), block.dataList)
    ensures if block.header.parentBlockHash == old(chain.root.header.hash)
            then chain.blockList == old(chain.blockList) + [block] && chain.root == block
            else chain.blockList == old(chain.blockList) && chain.root == old(chain.root)
    ensures fresh(node.block)
    ensures node.block.header == BlockHeader(now, block.header.hash, [], 0) && node.block.dataList == []
    ensures calls == FanOut(node.peerNodes, BlockRequest(BlockArgOf(block.header, block.dataList)))
                   + FanOut(node.peerNodes, BlockRequest(BlockArgOf(node.block.header, [])))
  {
    var _ := block.Add(transaction, max);
    var _ := chain.AddBlock(block, c, max);
    calls := AnnounceClosedBlock(block, node, now);
  }

  /** The end of CloseBlock: the closed block is broadcast, then the node's new
      empty block on top of it is, too. */
  method AnnounceClosedBlock(block: Block, node: Node, now: int64) returns (calls: seq<RpcCall>)
    modifies node
    ensures node.id == old(node.id) && node.self == old(node.self) && node.peerNodes == old(node.peerNodes)
    ensures node.localChain == old(node.localChain)
    ensures fresh(node.block)
    ensures node.block.header == BlockHeader(now, block.header.hash, [], 0) && node.block.dataList == []
    ensures calls == FanOut(node.peerNodes, BlockRequest(BlockArgOf(block.header, block.dataList)))
                   + FanOut(node.peerNodes, BlockRequest(BlockArgOf(node.block.header, [])))
  {
    var blockCalls := node.SendBlock(block);
    node.block := new Block.MakeBlock(now, block.GetHash());
    var emptyCalls := node.SendBlock(node.block);
    calls := blockCalls + emptyCalls;
  }

  /** Block.AddTransaction: with room for more than one transaction, adds it
      (Add may still refuse) and broadcasts it; the transaction that fills the
      block closes it (CloseBlock); a block already over max is left alone. */
  method AddTransaction(block: Block, transaction: Transaction, chain: BlockChain, node: Node, c: Crypto, max: nat, now: int64)
    returns (calls: seq<RpcCall>)
    requires chain.Valid()
    requires block !in chain.blockList
    requires |block.dataList| <= max && |block.dataList| + 1 != max ==> node.block != null
    modifies block, chain, node
    ensures chain.Valid() && chain.genesis == old(chain.genesis)
    ensures node.id == old(node.id) && node.self == old(node.self) && node.peerNodes == old(node.peerNodes)
    ensures node.localChain == old(node.localChain)
    ensures old(node.Valid()) && node.localChain == chain ==> node.Valid()
    ensures |old(block.dataList)| > max ==>
      && calls == []
      && block.dataList == old(block.dataList) && block.header == old(block.header)
      && chain.blockList == old(chain.blockList) && node.block == old(node.block)
    ensures |old(block.dataList)| + 1 == max ==>
      && block.dataList == old(block.dataList) + [transaction]
      && block.header == MinedHeader(c, old(block.header), block.dataList)
      && (if block.header.parentBlockHash == old(chain.root.header.hash)
          then chain.blockList == old(chain.blockList) + [block] && chain.root == block
          else chain.blockList == old(chain.blockList) && chain.root == old(chain.root))
      && fresh(node.block)
      && node.block.header == BlockHeader(now, block.header.hash, [], 0) && node.block.dataList == []
      && calls == FanOut(node.peerNodes, BlockRequest(BlockArgOf(block.header, block.dataList)))
                + FanOut(node.peerNodes, BlockRequest(BlockArgOf(node.block.header, [])))
    ensures |old(block.dataList)| <= max && |old(block.dataList)| + 1 != max ==>
      && block.dataList == AddOne(old(block.dataList), transaction, max) && block.header == old(block.header)
      && chain.blockList == old(chain.blockList) && chain.root == old(chain.root)
      && node.block == old(node.block)
      && calls == FanOut(node.peerNodes, TransactionRequest(TransactionArgOf(transaction, node.block.header.timestamp)))
  {
    if |block.dataList| > max {
      calls := [];
    } else if |block.dataList| + 1 == max {
      calls := CloseBlock(block, transaction, chain, node, c, max, now);
    } else {
      var _ := block.Add(transaction, max);
      calls := node.SendTransaction(transaction);
    }
  }
}
