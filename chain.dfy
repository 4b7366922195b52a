/** blockchain/chain.go: the append-only list of accepted blocks, its tip
    (`root`) and first block (`genesis`), and the two ways a block is
    accepted: AddBlock for a block mined locally and AddConsensusBlock for a
    block whose hash a peer announced. */
module Chains {
  import opened Primitives
  import opened Pow
  import opened Transactions
  import opened Blocks

  datatype ChainError =
    | BlockNotFull         // "Block is not full, cannot add to chain"
    | HashMismatch         // "Block hash does not match root hash, or block hash does not exist"
    | ConsensusNotReached  // "consensus not reached"

  datatype AddResult = Added | Rejected(reason: ChainError)

  /** The checks AddBlock makes on the mined candidate, in order: the block
      is full, then its parent hash is byte-equal to the tip's hash. */
  function AddBlockVerdict(max: nat, listLen: nat, parentHash: Bytes, rootHash: Bytes): AddResult
  {
    if listLen < max then Rejected(BlockNotFull)
    else if parentHash == rootHash then Added
    else Rejected(HashMismatch)
  }

  /** AddConsensusBlock first compares the mined hash with the announced one,
      and only then makes the checks of AddBlock. */
  function ConsensusVerdict(max: nat, minedHash: Bytes, correctHash: Bytes, listLen: nat, parentHash: Bytes, rootHash: Bytes): AddResult
  {
    if minedHash != correctHash then Rejected(ConsensusNotReached)
    else AddBlockVerdict(max, listLen, parentHash, rootHash)
  }

  /** AddBlock accepts exactly the full candidates that link to the tip, and
      reports a not-full block before any hash mismatch. */
  lemma AddBlockAcceptsExactly(max: nat, listLen: nat, parentHash: Bytes, rootHash: Bytes)
    ensures AddBlockVerdict(max, listLen, parentHash, rootHash) == Added <==> listLen >= max && parentHash == rootHash
    ensures listLen < max ==> AddBlockVerdict(max, listLen, parentHash, rootHash) == Rejected(BlockNotFull)
  {
  }

  /** A hash that differs from the announced one is rejected as "consensus not
      reached" whatever the other checks would say; acceptance needs all three. */
  lemma ConsensusChecksHashFirst(max: nat, minedHash: Bytes, correctHash: Bytes, listLen: nat, parentHash: Bytes, rootHash: Bytes)
    ensures minedHash != correctHash ==>
      ConsensusVerdict(max, minedHash, correctHash, listLen, parentHash, rootHash) == Rejected(ConsensusNotReached)
    ensures ConsensusVerdict(max, minedHash, correctHash, listLen, parentHash, rootHash) == Added <==>
      minedHash == correctHash && listLen >= max && parentHash == rootHash
  {
  }

  /** The two AddBlock cases of the test program: six transactions of seven
      are rejected; a full block whose parent is the tip's hash is accepted. */
  lemma AddBlockTestCases(rootHash: Bytes, other: Bytes)
    requires other != rootHash
    ensures AddBlockVerdict(7, 6, rootHash, rootHash) == Rejected(BlockNotFull)
    ensures AddBlockVerdict(7, 7, rootHash, rootHash) == Added
    ensures AddBlockVerdict(7, 7, other, rootHash) == Rejected(HashMismatch)
  {
  }

  class BlockChain {
    var root: Block
    var genesis: Block
    var blockList: seq<Block>

    /** The chain holds at least its genesis block, first; the tip is the last
        block; genesis has no parent; consecutive blocks are linked. */
    ghost predicate Valid()
      reads this, blockList
    {
      && |blockList| >= 1
      && blockList[0] == genesis
      && root == blockList[|blockList| - 1]
      && genesis.header.parentBlockHash == []
      && (forall i :: 0 < i < |blockList| ==> blockList[i].header.parentBlockHash == blockList[i - 1].header.hash)
    }

    /** NewBlockChain: a chain holding only a freshly mined genesis block. */
    constructor NewBlockChain(c: Crypto, max: nat, now: int64)
      requires max >= 1
      ensures Valid()
      ensures blockList == [genesis] && root == genesis
      ensures fresh(genesis)
      ensures genesis.dataList == seq(max, _ => Placeholder())
      ensures genesis.header == MinedHeader(c, BlockHeader(now, [], [], 0), genesis.dataList)
    {
      var g := MakeGenesisBlock(c, max, now);
      MinedHeaderIsSealed(c, BlockHeader(now, [], [], 0), g.dataList);
      root := g;
      genesis := g;
      blockList := [g];
    }

    function GetRoot(): Block reads this { root }

    function GetBlockListLen(): nat reads this { |blockList| }

    /** Appending a block that links to the tip keeps the chain valid. */
    method Append(block: Block)
      requires Valid()
      requires block !in blockList
      requires block.header.parentBlockHash == root.header.hash
      modifies this
      ensures Valid()
      ensures blockList == old(blockList) + [block] && root == block && genesis == old(genesis)
    {
      blockList := blockList + [block];
      root := block;
    }

    /** AddBlock: mines the candidate (always, even when it is then rejected),
        then accepts it when it is full and its parent hash is the tip's hash;
        on acceptance it becomes the new tip, otherwise nothing changes but
        the candidate's nonce and hash. */
    method AddBlock(block: Block, c: Crypto, max: nat) returns (result: AddResult)
      requires Valid()
      requires block !in blockList
      requires |block.dataList| > 0
      modifies this, block
      ensures Valid()
      ensures genesis == old(genesis)
      ensures block.dataList == old(block.dataList)
      ensures block.header == MinedHeader(c, old(block.header), block.dataList)
      ensures result == AddBlockVerdict(max, |block.dataList|, block.header.parentBlockHash, old(root.header.hash))
      ensures result == Added ==> blockList == old(blockList) + [block] && root == block
      ensures result != Added ==> blockList == old(blockList) && root == old(root)
    {
      var _, _ := block.Mine(c);
      MinedHeaderIsSealed(c, old(block.header), block.dataList);
      var rootHash := root.GetHash();
      var blockHash := block.GetParentBlockHash();
      if |block.GetDataList()| < max {
        result := Rejected(BlockNotFull);
      } else if blockHash == rootHash {
        Append(block);
        result := Added;
      } else {
        result := Rejected(HashMismatch);
      }
    }

    /** AddConsensusBlock: mines the candidate, then requires the mined hash to
        equal the announced one before making the checks of AddBlock. */
    method AddConsensusBlock(block: Block, correctHash: Bytes, c: Crypto, max: nat) returns (result: AddResult)
      requires Valid()
      requires block !in blockList
      requires |block.dataList| > 0
      modifies this, block
      ensures Valid()
      ensures genesis == old(genesis)
      ensures block.dataList == old(block.dataList)
      ensures block.header == MinedHeader(c, old(block.header), block.dataList)
      ensures result == ConsensusVerdict(max, block.header.hash, correctHash, |block.dataList|,
                                         block.header.parentBlockHash, old(root.header.hash))
      ensures result == Added ==> blockList == old(blockList) + [block] && root == block
      ensures result != Added ==> blockList == old(blockList) && root == old(root)
    {
      var _, _ := block.Mine(c);
      MinedHeaderIsSealed(c, old(block.header), block.dataList);
      var rootHash := root.GetHash();
      var blockParentHash := block.GetParentBlockHash();
      if block.GetHash() != correctHash {
        result := Rejected(ConsensusNotReached);
      } else if |block.GetDataList()| < max {
        result := Rejected(BlockNotFull);
      } else if blockParentHash == rootHash {
        Append(block);
        result := Added;
      } else {
        result := Rejected(HashMismatch);
      }
    }
  }
}
