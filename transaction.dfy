/** blockchain/transaction.go: a transaction, its byte encoding, its content
    hash and its structural equality (the merkletree.Content interface). */
module Transactions {
  import opened Primitives
  import opened Pow

  /** Sender and recipient are opaque addresses; data is a free-form payload. */
  datatype Transaction = Transaction(sender: Bytes, recipient: Bytes, timestamp: int64, data: Bytes)

  /** TransactionDataToBytes: the four fields joined with an empty separator,
      the timestamp as its 8-byte big-endian form. */
  function TransactionDataToBytes(t: Transaction): (r: Bytes)
    ensures |r| == |t.sender| + |t.recipient| + 8 + |t.data|
  {
    t.sender + t.recipient + ToHex(t.timestamp) + t.data
  }

  /** Cuts an encoding back into its fields, given the lengths of sender and
      recipient (the encoding itself does not record them); None when the
      bytes are too short to hold those fields and a timestamp. */
  function SplitTransaction(b: Bytes, senderLen: nat, recipientLen: nat): Option<Transaction>
  {
    var ts := senderLen + recipientLen;
    if |b| < ts + 8 then None
    else Some(Transaction(b[..senderLen], b[senderLen..ts], FromHex(b[ts..ts + 8]), b[ts + 8..]))
  }

  /** With the two lengths known, the encoding loses nothing. */
  lemma EncodingRoundTrip(t: Transaction)
    ensures SplitTransaction(TransactionDataToBytes(t), |t.sender|, |t.recipient|) == Some(t)
  {
    var b := TransactionDataToBytes(t);
    var ts := |t.sender| + |t.recipient|;
    assert b[..|t.sender|] == t.sender;
    assert b[|t.sender|..ts] == t.recipient;
    assert b[ts..ts + 8] == ToHex(t.timestamp);
    assert b[ts + 8..] == t.data;
    ToHexRoundTrip(t.timestamp);
  }

  /** Every way of cutting a byte string into fields that succeeds comes from
      encoding the transaction it yields. */
  lemma SplitThenEncode(b: Bytes, senderLen: nat, recipientLen: nat)
    requires SplitTransaction(b, senderLen, recipientLen).Some?
    ensures TransactionDataToBytes(SplitTransaction(b, senderLen, recipientLen).value) == b
  {
    var ts := senderLen + recipientLen;
    FromHexRoundTrip(b[ts..ts + 8]);
    assert b == b[..senderLen] + b[senderLen..ts] + b[ts..ts + 8] + b[ts + 8..];
  }

  /** CalculateHash: SHA-256 of the encoding. */
  function CalculateHash(c: Crypto, t: Transaction): Bytes
  {
    c.sha256(TransactionDataToBytes(t))
  }

  /** Equals: reflect.DeepEqual on the two structs. */
  predicate Equals(t: Transaction, other: Transaction)
  {
    t == other
  }

  /** Equals holds exactly when all four fields agree; it is therefore
      reflexive and symmetric, and equal transactions hash the same. */
  lemma EqualsIsFieldwise(c: Crypto, t: Transaction, u: Transaction)
    ensures Equals(t, u) <==>
      t.sender == u.sender && t.recipient == u.recipient && t.timestamp == u.timestamp && t.data == u.data
    ensures Equals(t, t)
    ensures Equals(t, u) <==> Equals(u, t)
    ensures Equals(t, u) ==> CalculateHash(c, t) == CalculateHash(c, u)
  {
  }

  /** There is no separator between sender and recipient: moving bytes across
      that boundary changes neither the encoding nor the hash. */
  lemma SenderRecipientBoundary(c: Crypto, t: Transaction, u: Transaction)
    requires t.sender + t.recipient == u.sender + u.recipient
    requires t.timestamp == u.timestamp && t.data == u.data
    ensures TransactionDataToBytes(t) == TransactionDataToBytes(u)
    ensures CalculateHash(c, t) == CalculateHash(c, u)
  {
    calc {
      TransactionDataToBytes(t);
      (t.sender + t.recipient) + (ToHex(t.timestamp) + t.data);
      (u.sender + u.recipient) + (ToHex(u.timestamp) + u.data);
      TransactionDataToBytes(u);
    }
  }

  /** A concrete instance: "ab"/"c" and "a"/"bc" are different transactions
      with the same hash. */
  lemma BoundaryCollision(c: Crypto)
    ensures var t := Transaction(Ascii("ab"), Ascii("c"), 0, Ascii("init"));
            var u := Transaction(Ascii("a"), Ascii("bc"), 0, Ascii("init"));
            !Equals(t, u) && CalculateHash(c, t) == CalculateHash(c, u)
  {
    var t := Transaction(Ascii("ab"), Ascii("c"), 0, Ascii("init"));
    var u := Transaction(Ascii("a"), Ascii("bc"), 0, Ascii("init"));
    assert t.sender != u.sender by {
      assert |t.sender| == 2 && |u.sender| == 1;
    }
    assert t.sender + t.recipient == u.sender + u.recipient;
    SenderRecipientBoundary(c, t, u);
  }

  /** The two cases the test program checks: t equals an identical t2 and does
      not equal t3, which differs only in its timestamp. */
  lemma EqualsTestCases()
    ensures var t := Transaction(Ascii("sender"), Ascii("recipient"), 1682708458208064000, Ascii("data"));
            var t2 := Transaction(Ascii("sender"), Ascii("recipient"), 1682708458208064000, Ascii("data"));
            var t3 := Transaction(Ascii("sender"), Ascii("recipient"), 0, Ascii("data"));
            Equals(t, t2) && !Equals(t, t3)
  {
  }
}
