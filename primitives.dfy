/** Fixed-width integers, byte strings, big-endian conversion, and the two
    foreign primitives the ledger is built on (SHA-256 and the Merkle
    library's root), which are supplied by the caller and left uninterpreted. */
module Primitives {

  type byte = x: int | 0 <= x < 256
  type Bytes = seq<byte>

  /** Go's int64 and uint64 */
  type int64 = x: int | -0x8000_0000_0000_0000 <= x < 0x8000_0000_0000_0000
  type uint64 = x: int | 0 <= x < 0x1_0000_0000_0000_0000

  /** math.MaxInt64 */
  const MaxInt64: int := 0x7fff_ffff_ffff_ffff

  datatype Option<T> = None | Some(value: T)

  /** The foreign primitives: `sha256` is crypto/sha256 over a message, and
      `merkleRoot` is the root the Merkle library builds over the ordered list
      of its leaves' content hashes. Neither is given a definition. */
  datatype Crypto = Crypto(sha256: Bytes -> Bytes, merkleRoot: seq<Bytes> -> Bytes)

  /** FIPS 180-4: a SHA-256 digest is 32 bytes long. */
  ghost predicate DigestsAre32Bytes(c: Crypto) {
    forall m :: |c.sha256(m)| == 32
  }

  /** The bytes of a Go string literal such as []byte("init"). */
  function Ascii(s: string): (r: Bytes)
    requires forall i :: 0 <= i < |s| ==> s[i] as int < 256
    ensures |r| == |s|
    ensures forall i :: 0 <= i < |s| ==> r[i] == s[i] as int
  {
    seq(|s|, i requires 0 <= i < |s| => s[i] as int)
  }

  function Pow2(k: nat): (r: nat)
    ensures r >= 1
  {
    if k == 0 then 1 else 2 * Pow2(k - 1)
  }

  function Pow256(k: nat): (r: nat)
    ensures r >= 1
  {
    if k == 0 then 1 else 256 * Pow256(k - 1)
  }

  lemma {:induction false} Pow2Add(a: nat, b: nat)
    ensures Pow2(a + b) == Pow2(a) * Pow2(b)
  {
    if a > 0 {
      Pow2Add(a - 1, b);
      assert Pow2(a + b) == 2 * Pow2(a - 1 + b);
    }
  }

  lemma {:induction false} Pow2Bytes(k: nat)
    ensures Pow2(8 * k) == Pow256(k)
  {
    if k > 0 {
      Pow2Bytes(k - 1);
      Pow2Add(8, 8 * (k - 1));
      assert Pow2(8) == 256;
    }
  }

  /** The `width` bytes of `u` (taken modulo 256^width), most significant first. */
  function BigEndianBytes(u: nat, width: nat): (r: Bytes)
    ensures |r| == width
  {
    if width == 0 then [] else BigEndianBytes(u / 256, width - 1) + [u % 256]
  }

  /** The unsigned integer a byte string denotes, read big-endian
      (math/big's SetBytes). */
  function BigEndianValue(s: Bytes): nat
  {
    if s == [] then 0 else BigEndianValue(s[..|s| - 1]) * 256 + s[|s| - 1]
  }

  lemma {:induction false} BigEndianValueBound(s: Bytes)
    ensures BigEndianValue(s) < Pow256(|s|)
  {
    if s != [] {
      BigEndianValueBound(s[..|s| - 1]);
    }
  }

  /** Reading back what BigEndianBytes wrote gives the number again. */
  lemma {:induction false} BigEndianRoundTrip(u: nat, width: nat)
    requires u < Pow256(width)
    ensures BigEndianValue(BigEndianBytes(u, width)) == u
  {
    if width > 0 {
      var r := BigEndianBytes(u, width);
      var q, m := u / 256, u % 256;
      assert u == q * 256 + m;
      assert q < Pow256(width - 1);
      assert r[..width - 1] == BigEndianBytes(q, width - 1);
      assert r[width - 1] == m;
      BigEndianRoundTrip(q, width - 1);
      assert BigEndianValue(r) == BigEndianValue(r[..width - 1]) * 256 + r[width - 1];
    }
  }

  /** Writing out the value of a byte string gives the byte string again. */
  lemma {:induction false} BigEndianBytesOfValue(s: Bytes)
    ensures BigEndianBytes(BigEndianValue(s), |s|) == s
  {
    if s != [] {
      var init := s[..|s| - 1];
      var v := BigEndianValue(s);
      assert v / 256 == BigEndianValue(init) && v % 256 == s[|s| - 1];
      BigEndianBytesOfValue(init);
      assert s == init + [s[|s| - 1]];
    }
  }

  lemma ShiftByte(x: int, y: int, p: int, last: int)
    ensures (x * p + y) * 256 + last == x * (256 * p) + (y * 256 + last)
  {
  }

  /** The value of a concatenation: the prefix's value shifted past the suffix. */
  lemma {:induction false} BigEndianConcat(a: Bytes, b: Bytes)
    ensures BigEndianValue(a + b) == BigEndianValue(a) * Pow256(|b|) + BigEndianValue(b)
  {
    if b != [] {
      var b' := b[..|b| - 1];
      var last := b[|b| - 1];
      assert (a + b)[..|a + b| - 1] == a + b';
      BigEndianConcat(a, b');
      ShiftByte(BigEndianValue(a), BigEndianValue(b'), Pow256(|b'|), last);
    } else {
      assert a + b == a;
    }
  }
}
