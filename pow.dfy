/** blockchain/pow.go: the proof-of-work target, the 8-byte integer encoding,
    the bytes a block's hash is taken over, and the nonce search that Block.Mine
    performs (its loop is in module Blocks; its specification is here). */
module Pow {
  import opened Primitives

  /** The fixed difficulty; there is no retargeting. */
  const Difficulty: int64 := 12

  datatype ProofOfWork = ProofOfWork(target: nat)

  /** The target 1 << (256 - difficulty), written out (TargetIsPow2). */
  const Target: nat := 0x1_0000_0000_0000_0000_0000_0000_0000_0000_0000_0000_0000_0000_0000_0000_0000_0

  /** The written-out target is 1 << (256 - difficulty), by repeated squaring. */
  lemma TargetIsPow2()
    ensures Target == Pow2(256 - Difficulty)
  {
    assert Pow2(1) == 2 * Pow2(0);
    Pow2Add(1, 1);
    Pow2Add(2, 1);
    Pow2Add(3, 3);
    Pow2Add(6, 1);
    assert Pow2(7) == 128;
    Pow2Add(7, 7);
    assert Pow2(14) == 16384;
    Pow2Add(14, 1);
    assert Pow2(15) == 32768;
    Pow2Add(15, 15);
    assert Pow2(30) == 0x4000_0000;
    Pow2Add(30, 30);
    assert Pow2(60) == 0x1000_0000_0000_0000;
    Pow2Add(60, 1);
    assert Pow2(61) == 0x2000_0000_0000_0000;
    Pow2Add(61, 61);
    assert Pow2(122) == 0x400_0000_0000_0000_0000_0000_0000_0000;
    Pow2Add(122, 122);
  }

  /** NewPOW: the target is 1 shifted left by 256 - difficulty. */
  function NewPOW(): (p: ProofOfWork)
    ensures p.target == Pow2(256 - Difficulty)
  {
    TargetIsPow2();
    ProofOfWork(Target)
  }

  /** A hash, read as a big-endian unsigned integer, is strictly below the target. */
  predicate MeetsTarget(hash: Bytes)
  {
    BigEndianValue(hash) < Target
  }

  lemma ScaledBelow(a: nat, b: nat, p: nat)
    requires b < p
    ensures a * p + b < 16 * p <==> a < 16
  {
    if a < 16 {
      assert (15 - a) * p >= 0;
      assert a * p <= 15 * p;
    } else {
      assert (a - 16) * p >= 0;
      assert a * p >= 16 * p;
    }
  }

  /** Difficulty 12 means twelve leading zero bits: a 32-byte hash meets the
      target exactly when its first byte is zero and its second is below 16. */
  lemma TargetIsTwelveZeroBits(h: Bytes)
    requires |h| == 32
    ensures MeetsTarget(h) <==> h[0] == 0 && h[1] < 16
  {
    var hi, lo := h[..2], h[2..];
    assert h == hi + lo;
    BigEndianConcat(hi, lo);
    BigEndianValueBound(lo);
    assert BigEndianValue([h[0]]) == h[0] by {
      assert [h[0]][..0] == [];
    }
    assert hi[..1] == [h[0]];
    assert BigEndianValue(hi) == h[0] as int * 256 + h[1] as int;
    Pow2Add(4, 240);
    Pow2Bytes(30);
    assert Pow2(4) == 16;
    TargetIsPow2();
    assert Target == 16 * Pow256(30);
    ScaledBelow(BigEndianValue(hi), BigEndianValue(lo), Pow256(30));
  }

  /** The two's-complement bit pattern of an int64, as an unsigned number. */
  function TwosComplement(n: int64): (u: nat)
    ensures u < Pow256(8)
    ensures n >= 0 ==> u == n
    ensures n < 0 ==> u == n + 0x1_0000_0000_0000_0000
  {
    assert Pow256(8) == 0x1_0000_0000_0000_0000;
    if n < 0 then n + 0x1_0000_0000_0000_0000 else n
  }

  /** ToHex: binary.Write of an int64 in big-endian order. */
  function ToHex(n: int64): (r: Bytes)
    ensures |r| == 8
  {
    BigEndianBytes(TwosComplement(n), 8)
  }

  /** The inverse of ToHex: binary.Read of a big-endian int64. */
  function FromHex(b: Bytes): (n: int64)
    requires |b| == 8
  {
    BigEndianValueBound(b);
    assert Pow256(8) == 0x1_0000_0000_0000_0000;
    var u := BigEndianValue(b);
    if u >= 0x8000_0000_0000_0000 then u - 0x1_0000_0000_0000_0000 else u
  }

  lemma ToHexRoundTrip(n: int64)
    ensures FromHex(ToHex(n)) == n
  {
    BigEndianRoundTrip(TwosComplement(n), 8);
  }

  lemma FromHexRoundTrip(b: Bytes)
    requires |b| == 8
    ensures ToHex(FromHex(b)) == b
  {
    BigEndianValueBound(b);
    assert Pow256(8) == 0x1_0000_0000_0000_0000;
    assert TwosComplement(FromHex(b)) == BigEndianValue(b);
    BigEndianBytesOfValue(b);
  }

  /** Distinct integers have distinct encodings. */
  lemma ToHexInjective(m: int64, n: int64)
    ensures ToHex(m) == ToHex(n) <==> m == n
  {
    ToHexRoundTrip(m);
    ToHexRoundTrip(n);
  }

  /** Go's conversion int64(u) of a uint64: the same 64 bits, read signed. */
  function AsInt64(u: uint64): (n: int64)
    ensures TwosComplement(n) == u
  {
    if u >= 0x8000_0000_0000_0000 then u - 0x1_0000_0000_0000_0000 else u
  }

  /** BlockDataToBytes: parentHash ++ merkleRoot ++ ToHex(int64(nonce)) ++
      ToHex(difficulty), with no separators. The timestamp is not part of it. */
  function BlockDataToBytes(parentHash: Bytes, merkleRoot: Bytes, nonce: uint64): (r: Bytes)
    ensures |r| == |parentHash| + |merkleRoot| + 16
  {
    parentHash + merkleRoot + ToHex(AsInt64(nonce)) + ToHex(Difficulty)
  }

  /** The nonce and the difficulty can be read back from the last sixteen bytes,
      whatever the parent hash and Merkle root are. */
  lemma BlockDataTail(parentHash: Bytes, merkleRoot: Bytes, nonce: uint64)
    ensures var r := BlockDataToBytes(parentHash, merkleRoot, nonce);
            && FromHex(r[|r| - 16..|r| - 8]) == AsInt64(nonce)
            && FromHex(r[|r| - 8..]) == Difficulty
  {
    var r := BlockDataToBytes(parentHash, merkleRoot, nonce);
    var head := parentHash + merkleRoot;
    assert r[|r| - 16..|r| - 8] == ToHex(AsInt64(nonce)) by {
      assert r == head + ToHex(AsInt64(nonce)) + ToHex(Difficulty);
    }
    assert r[|r| - 8..] == ToHex(Difficulty);
    ToHexRoundTrip(AsInt64(nonce));
    ToHexRoundTrip(Difficulty);
  }

  /** Two nonces give the same hashed bytes over the same parent and root
      only if they are the same nonce. */
  lemma BlockDataNonceInjective(parentHash: Bytes, merkleRoot: Bytes, m: uint64, n: uint64)
    ensures BlockDataToBytes(parentHash, merkleRoot, m) == BlockDataToBytes(parentHash, merkleRoot, n) <==> m == n
  {
    if BlockDataToBytes(parentHash, merkleRoot, m) == BlockDataToBytes(parentHash, merkleRoot, n) {
      BlockDataTail(parentHash, merkleRoot, m);
      BlockDataTail(parentHash, merkleRoot, n);
      assert TwosComplement(AsInt64(m)) == TwosComplement(AsInt64(n));
    }
  }

  // ---------------------------------------------------------------------
  // The nonce search of Block.Mine
  // ---------------------------------------------------------------------

  /** What one run of Mine ends with: the nonce and hash it stored and the
      number of misses it counted, or having run out of nonces. */
  datatype MineOutcome = Found(nonce: uint64, hash: Bytes, misses: nat) | Exhausted

  /** The hash of one try. */
  function Attempt(c: Crypto, parentHash: Bytes, merkleRoot: Bytes, nonce: uint64): Bytes
  {
    c.sha256(BlockDataToBytes(parentHash, merkleRoot, nonce))
  }

  /** The hash each nonce yields over a fixed parent hash and Merkle root. */
  function Tries(c: Crypto, parentHash: Bytes, merkleRoot: Bytes): uint64 -> Bytes
  {
    n => Attempt(c, parentHash, merkleRoot, n)
  }

  /** The nonce the header holds at the try after `misses` misses: the first try
      uses whatever nonce the block already had; after the k-th miss the loop
      has stored k. */
  function TriedNonce(start: uint64, misses: nat): uint64
    requires misses <= MaxInt64
  {
    if misses == 0 then start else misses
  }

  /** The try after `misses` misses meets the target, when nonce n hashes to
      hashOf(n). */
  predicate Hit(hashOf: uint64 -> Bytes, start: uint64, misses: nat)
    requires misses <= MaxInt64
  {
    MeetsTarget(hashOf(TriedNonce(start, misses)))
  }

  /** The search loop, from the try after `misses` misses on; it stops when the
      miss counter reaches MaxInt64. */
  function Search(hashOf: uint64 -> Bytes, start: uint64, misses: nat): MineOutcome
    requires misses <= MaxInt64
    decreases MaxInt64 - misses
  {
    if misses == MaxInt64 then Exhausted
    else if Hit(hashOf, start, misses) then
      Found(TriedNonce(start, misses), hashOf(TriedNonce(start, misses)), misses)
    else Search(hashOf, start, misses + 1)
  }

  /** A miss moves the search on to the next try. */
  lemma SearchMiss(hashOf: uint64 -> Bytes, start: uint64, k: nat)
    requires k < MaxInt64
    requires !Hit(hashOf, start, k)
    ensures Search(hashOf, start, k) == Search(hashOf, start, k + 1)
  {
  }

  /** The search ends at the first try that meets the target, and only there:
      the stored hash is that try's hash, every earlier try missed, and running
      out means every try missed. */
  lemma {:induction false} SearchFindsFirstHit(hashOf: uint64 -> Bytes, start: uint64, k: nat)
    requires k <= MaxInt64
    ensures match Search(hashOf, start, k)
      case Found(n, h, m) =>
        && k <= m < MaxInt64
        && n == TriedNonce(start, m)
        && h == hashOf(n)
        && Hit(hashOf, start, m)
        && forall j :: k <= j < m ==> !Hit(hashOf, start, j)
      case Exhausted =>
        forall j :: k <= j < MaxInt64 ==> !Hit(hashOf, start, j)
    decreases MaxInt64 - k
  {
    if k < MaxInt64 && !Hit(hashOf, start, k) {
      SearchMiss(hashOf, start, k);
      SearchFindsFirstHit(hashOf, start, k + 1);
    }
  }

  /** Starting from nonce 0 (a freshly made block), the nonce found is the least
      nonce whose hash meets the target. */
  lemma LeastNonceFromZero(hashOf: uint64 -> Bytes)
    ensures Search(hashOf, 0, 0).Found? ==>
      var n := Search(hashOf, 0, 0).nonce;
      && MeetsTarget(hashOf(n))
      && forall m: uint64 :: m < n ==> !MeetsTarget(hashOf(m))
  {
    SearchFindsFirstHit(hashOf, 0, 0);
    var r := Search(hashOf, 0, 0);
    if r.Found? {
      forall m: uint64 | m < r.nonce
        ensures !MeetsTarget(hashOf(m))
      {
        assert TriedNonce(0, m) == m;
        assert !Hit(hashOf, 0, m);
      }
    }
  }

  /** A block whose current nonce already meets the target keeps it, with no
      misses. */
  lemma SealedNonceIsKept(hashOf: uint64 -> Bytes, start: uint64)
    requires MeetsTarget(hashOf(start))
    ensures Search(hashOf, start, 0) == Found(start, hashOf(start), 0)
  {
  }

  /** Searching again from the nonce a search found finds it again at once. */
  lemma SearchAgainAfterSuccess(hashOf: uint64 -> Bytes, start: uint64)
    requires Search(hashOf, start, 0).Found?
    ensures var n := Search(hashOf, start, 0).nonce;
            Search(hashOf, n, 0) == Search(hashOf, start, 0).(misses := 0)
  {
    SearchFindsFirstHit(hashOf, start, 0);
  }
}
