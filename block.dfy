/** blockchain/block.go (and Mine from blockchain/pow.go): a block is a header
    plus a bounded, ordered list of transactions; its transaction tree is
    rebuilt over the whole list after every Add. */
module Blocks {
  import opened Primitives
  import opened Pow
  import opened Transactions

  /** timestamp is when the block was made, parentBlockHash the hash of the
      block before it, hash empty until a mining run succeeds, nonce 0 until
      mining moves it. */
  datatype BlockHeader = BlockHeader(timestamp: int64, parentBlockHash: Bytes, hash: Bytes, nonce: uint64)

  /** The leaves of a block's transaction tree: the content hash of each
      transaction, in list order. */
  function LeafHashes(c: Crypto, list: seq<Transaction>): (leaves: seq<Bytes>)
    ensures |leaves| == |list|
  {
    if list == [] then []
    else LeafHashes(c, list[..|list| - 1]) + [Transactions.CalculateHash(c, list[|list| - 1])]
  }

  /** The root of the tree the Merkle library builds over the list. */
  function MerkleRootOf(c: Crypto, list: seq<Transaction>): Bytes
  {
    c.merkleRoot(LeafHashes(c, list))
  }

  /** The hash a block with this header and list would compute now. */
  function ContentHash(c: Crypto, h: BlockHeader, list: seq<Transaction>): Bytes
  {
    Attempt(c, h.parentBlockHash, MerkleRootOf(c, list), h.nonce)
  }

  /** The block's stored hash is the hash of its current contents and meets
      the target: what a successful mining run leaves behind. */
  predicate Sealed(c: Crypto, h: BlockHeader, list: seq<Transaction>)
  {
    h.hash == ContentHash(c, h, list) && MeetsTarget(h.hash)
  }

  /** The hash each nonce yields for a block with this parent and list. */
  function TriesOf(c: Crypto, h: BlockHeader, list: seq<Transaction>): uint64 -> Bytes
  {
    Tries(c, h.parentBlockHash, MerkleRootOf(c, list))
  }

  function MineOf(c: Crypto, h: BlockHeader, list: seq<Transaction>): MineOutcome
  {
    Search(TriesOf(c, h, list), h.nonce, 0)
  }

  /** The header one run of Mine leaves: on success the found nonce and its
      hash; on running out, the nonce MaxInt64 and the old hash. */
  function MinedHeader(c: Crypto, h: BlockHeader, list: seq<Transaction>): BlockHeader
  {
    match MineOf(c, h, list)
    case Found(n, hash, _) => h.(nonce := n, hash := hash)
    case Exhausted => h.(nonce := MaxInt64)
  }

  /** The miss count one run of Mine returns. */
  function MinedMisses(c: Crypto, h: BlockHeader, list: seq<Transaction>): nat
  {
    match MineOf(c, h, list)
    case Found(_, _, k) => k
    case Exhausted => MaxInt64
  }

  /** Mining changes only nonce and hash; when it succeeds the block is sealed. */
  lemma MinedHeaderIsSealed(c: Crypto, h: BlockHeader, list: seq<Transaction>)
    ensures MinedHeader(c, h, list).timestamp == h.timestamp
    ensures MinedHeader(c, h, list).parentBlockHash == h.parentBlockHash
    ensures MineOf(c, h, list).Found? ==> Sealed(c, MinedHeader(c, h, list), list)
  {
    SearchFindsFirstHit(TriesOf(c, h, list), h.nonce, 0);
  }

  /** Mining a block that is already sealed leaves its header as it is. */
  lemma MiningSealedIsIdentity(c: Crypto, h: BlockHeader, list: seq<Transaction>)
    requires Sealed(c, h, list)
    ensures MinedHeader(c, h, list) == h
    ensures MinedMisses(c, h, list) == 0
  {
    SealedNonceIsKept(TriesOf(c, h, list), h.nonce);
  }

  /** A second run of Mine after a successful one changes nothing. */
  lemma MiningIsIdempotent(c: Crypto, h: BlockHeader, list: seq<Transaction>)
    requires MineOf(c, h, list).Found?
    ensures MinedHeader(c, MinedHeader(c, h, list), list) == MinedHeader(c, h, list)
  {
    MinedHeaderIsSealed(c, h, list);
    MiningSealedIsIdentity(c, MinedHeader(c, h, list), list);
  }

  /** The outcome depends only on the parent hash, the Merkle root and the
      starting nonce: not on the timestamp, nor on the transactions beyond
      their root. */
  lemma MiningIsDeterministic(c: Crypto, h: BlockHeader, list: seq<Transaction>, h': BlockHeader, list': seq<Transaction>)
    requires h.parentBlockHash == h'.parentBlockHash && h.nonce == h'.nonce
    requires MerkleRootOf(c, list) == MerkleRootOf(c, list')
    ensures MinedHeader(c, h, list).nonce == MinedHeader(c, h', list').nonce
    ensures MineOf(c, h, list).Found? ==> MinedHeader(c, h, list).hash == MinedHeader(c, h', list').hash
    ensures MinedMisses(c, h, list) == MinedMisses(c, h', list')
  {
  }

  // ---------------------------------------------------------------------
  // Add, as a sequence of calls
  // ---------------------------------------------------------------------

  /** The list after Add(tx) on a block holding `list`: unchanged when full. */
  function AddOne(list: seq<Transaction>, tx: Transaction, max: nat): seq<Transaction>
  {
    if |list| >= max then list else list + [tx]
  }

  /** The list after calling Add with each of `txs` in turn, ignoring errors. */
  function AddAll(list: seq<Transaction>, txs: seq<Transaction>, max: nat): seq<Transaction>
    decreases |txs|
  {
    if txs == [] then list else AddAll(AddOne(list, txs[0], max), txs[1..], max)
  }

  function Min(a: int, b: int): int { if a <= b then a else b }

  /** Repeated Adds keep what the list held, take the offered transactions in
      order until the block is full, and drop the rest. */
  lemma {:induction false} AddAllFillsInOrder(list: seq<Transaction>, txs: seq<Transaction>, max: nat)
    requires |list| <= max
    ensures AddAll(list, txs, max) == list + txs[..Min(|txs|, max - |list|)]
    ensures |AddAll(list, txs, max)| <= max
    decreases |txs|
  {
    if txs != [] {
      var next := AddOne(list, txs[0], max);
      AddAllFillsInOrder(next, txs[1..], max);
      if |list| < max {
        assert txs[..Min(|txs|, max - |list|)] == [txs[0]] + txs[1..][..Min(|txs| - 1, max - |next|)];
      } else {
        assert txs[..Min(|txs|, max - |list|)] == [];
        assert AddAll(list, txs, max) == AddAll(list, txs[1..], max);
      }
    }
  }

  /** From an empty block, no sequence of Adds takes it past max. */
  lemma AddsNeverExceedMax(txs: seq<Transaction>, max: nat)
    ensures |AddAll([], txs, max)| <= max
    ensures |txs| > max ==> AddAll([], txs, max) == txs[..max]
  {
    AddAllFillsInOrder([], txs, max);
  }

  /** With max 1, the second transaction is not added. */
  lemma AddTestCase(t1: Transaction, t2: Transaction)
    ensures AddAll([], [t1, t2], 1) == [t1]
  {
    AddAllFillsInOrder([], [t1, t2], 1);
  }

  /** The placeholder transaction the genesis block is filled with. */
  function Placeholder(): Transaction
  {
    Transaction([], [], 0, Ascii("init"))
  }

  class Block {
    var header: BlockHeader
    var dataList: seq<Transaction>
    const pow: ProofOfWork := NewPOW()

    /** MakeBlock: a block under the given parent, made at time `now`, empty,
        with no transaction tree yet (the tree exists exactly when the list is
        non-empty). */
    constructor MakeBlock(now: int64, pBlockHash: Bytes)
      ensures header == BlockHeader(now, pBlockHash, [], 0)
      ensures dataList == []
    {
      header := BlockHeader(now, pBlockHash, [], 0);
      dataList := [];
    }

    /** MakeAddBlock: a block rebuilt from the fields a peer sent. */
    constructor MakeAddBlock(time: int64, pBlockHash: Bytes, nonc: uint64, dl: seq<Transaction>)
      ensures header == BlockHeader(time, pBlockHash, [], nonc)
      ensures dataList == dl
    {
      header := BlockHeader(time, pBlockHash, [], nonc);
      dataList := dl;
    }

    function GetTimestamp(): int64 reads this { header.timestamp }
    function GetHeader(): BlockHeader reads this { header }
    function GetParentBlockHash(): Bytes reads this { header.parentBlockHash }
    function GetHash(): Bytes reads this { header.hash }
    function GetNonce(): uint64 reads this { header.nonce }
    function GetDataList(): seq<Transaction> reads this { dataList }
    function GetTarget(): nat { pow.target }

    method SetHash(hash: Bytes)
      modifies this
      ensures header == old(header).(hash := hash)
      ensures dataList == old(dataList)
    {
      header := header.(hash := hash);
    }

    method SetNonce(nonce: uint64)
      modifies this
      ensures header == old(header).(nonce := nonce)
      ensures dataList == old(dataList)
    {
      header := header.(nonce := nonce);
    }

    /** SetBlockParentHash changes the parent hash and nothing else. */
    method SetBlockParentHash(hash: Bytes)
      modifies this
      ensures header == old(header).(parentBlockHash := hash)
      ensures dataList == old(dataList)
    {
      header := header.(parentBlockHash := hash);
    }

    /** BlockDataToBytes. Needs the transaction tree, so a non-empty list. */
    function BlockDataToBytes(c: Crypto): Bytes
      reads this
      requires |dataList| > 0
    {
      Pow.BlockDataToBytes(header.parentBlockHash, MerkleRootOf(c, dataList), header.nonce)
    }

    /** CalculateHash: SHA-256 of BlockDataToBytes. */
    function CalculateHash(c: Crypto): (r: Bytes)
      reads this
      requires |dataList| > 0
      ensures r == ContentHash(c, header, dataList)
    {
      c.sha256(BlockDataToBytes(c))
    }

    /** Add: refuses a full block and leaves it as it was; otherwise appends
        the transaction at the end (the tree is then rebuilt over the list). */
    method Add(transaction: Transaction, max: nat) returns (ok: bool)
      modifies this
      ensures ok <==> |old(dataList)| < max
      ensures dataList == AddOne(old(dataList), transaction, max)
      ensures header == old(header)
    {
      if |dataList| >= max {
        ok := false;
      } else {
        dataList := dataList + [transaction];
        ok := true;
      }
    }

    /** Mine: the nonce search. The first try uses the nonce the block already
        holds; after the k-th miss the header's nonce is set to k. It returns
        the local miss count and an all-zero 32-byte array (the hash found is
        stored in the header only). */
    method Mine(c: Crypto) returns (misses: nat, zero: Bytes)
      requires |dataList| > 0
      modifies this
      ensures dataList == old(dataList)
      ensures header == MinedHeader(c, old(header), dataList)
      ensures misses == MinedMisses(c, old(header), dataList)
      ensures |zero| == 32 && forall i :: 0 <= i < 32 ==> zero[i] == 0
    {
      ghost var start := header;
      ghost var tries := TriesOf(c, start, dataList);
      ghost var outcome := MineOf(c, start, dataList);
      zero := seq(32, _ => 0);
      var nonce: nat := 0;
      while nonce < MaxInt64
        invariant nonce <= MaxInt64
        invariant dataList == old(dataList)
        invariant header == start.(nonce := TriedNonce(start.nonce, nonce))
        invariant outcome == Search(tries, start.nonce, nonce)
        decreases MaxInt64 - nonce
      {
        var hash := CalculateHash(c);
        if MeetsTarget(hash) {  // the hash, read as a number, is below GetTarget()
          SetHash(hash);
          assert outcome == Found(TriedNonce(start.nonce, nonce), hash, nonce);
          misses := nonce;
          return;
        }
        SearchMiss(tries, start.nonce, nonce);
        nonce := nonce + 1;
        SetNonce(nonce);
      }
      misses := nonce;
    }
  }

  /** MakeGenesisBlock: a block with an empty parent, filled with max
      placeholder transactions, then mined. The mining needs a non-empty list,
      hence max >= 1. */
  method MakeGenesisBlock(c: Crypto, max: nat, now: int64) returns (genesis: Block)
    requires max >= 1
    ensures fresh(genesis)
    ensures genesis.dataList == seq(max, _ => Placeholder())
    ensures genesis.header == MinedHeader(c, BlockHeader(now, [], [], 0), genesis.dataList)
  {
    genesis := new Block.MakeBlock(now, []);
    var i := 0;
    while i < max
      invariant 0 <= i <= max
      invariant genesis.header == BlockHeader(now, [], [], 0)
      invariant genesis.dataList == seq(i, _ => Placeholder())
    {
      var _ := genesis.Add(Placeholder(), max);
      i := i + 1;
    }
    var _, _ := genesis.Mine(c);
  }

  /** The genesis block has an empty parent, exactly max placeholder
      transactions, and, when mining succeeds, a hash below the target. */
  lemma GenesisInvariant(c: Crypto, max: nat, now: int64)
    requires max >= 1
    ensures var h := MinedHeader(c, BlockHeader(now, [], [], 0), seq(max, _ => Placeholder()));
            && h.parentBlockHash == []
            && (MineOf(c, BlockHeader(now, [], [], 0), seq(max, _ => Placeholder())).Found? ==>
                  Sealed(c, h, seq(max, _ => Placeholder())))
  {
    MinedHeaderIsSealed(c, BlockHeader(now, [], [], 0), seq(max, _ => Placeholder()));
  }
}
