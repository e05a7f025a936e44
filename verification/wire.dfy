/** Byte-level helpers for DNS messages (header layout of section 4.1.1 of RFC 1035). */
module Wire {

  type byte = b: int | 0 <= b < 256
  type bytes = seq<byte>

  const TXID_LENGTH := 2
  const HEADER_LENGTH := 12

  /** The transaction id; zero for a message too short to carry one. */
  function Txid(payload: bytes): (id: nat)
    ensures id < 0x1_0000
  {
    if |payload| < TXID_LENGTH then 0 else payload[0] as int * 256 + payload[1]
  }

  function WithTxid(payload: bytes, newId: int): (r: bytes)
    ensures |r| == |payload|
    ensures |payload| < TXID_LENGTH ==> r == payload
    ensures |payload| >= TXID_LENGTH ==> Txid(r) == newId % 0x1_0000 && r[2..] == payload[2..]
  {
    if |payload| < TXID_LENGTH then payload
    else
      var id := newId % 0x1_0000;
      [id / 256, id % 256] + payload[2..]
  }

  function IsTruncated(payload: bytes): bool {
    |payload| >= HEADER_LENGTH && (payload[2] / 2) % 2 == 1
  }

  function Rcode(payload: bytes): (code: nat)
    ensures code < 16
  {
    if |payload| < HEADER_LENGTH then 0 else payload[3] % 16
  }

  /** Where the bits are: TC is the second lowest of the third octet, the rcode the low half of the
      fourth; a message too short for a header has neither. */
  lemma FlagsExactly(payload: bytes, high: nat, truncated: bool, desired: nat, upper: nat, code: nat)
    requires |payload| >= 12 && desired < 2 && code < 16
    requires payload[2] == 4 * high + (if truncated then 2 else 0) + desired && payload[3] == 16 * upper + code
    ensures IsTruncated(payload) == truncated && Rcode(payload) == code
    ensures forall short: bytes :: |short| < 12 ==> !IsTruncated(short) && Rcode(short) == 0
  {
    assert payload[2] / 2 == 2 * high + if truncated then 1 else 0;
  }

  /** Equal in every octet but the two of the id. */
  predicate SameBeyondId(a: bytes, b: bytes) {
    |a| == |b| && if |a| < TXID_LENGTH then a == b else a[2..] == b[2..]
  }

  /** A second stamp overwrites the first, and no stamp reaches the flags or the rcode. */
  lemma StampIsOpaque(payload: bytes, first: int, second: int)
    ensures WithTxid(WithTxid(payload, first), second) == WithTxid(payload, second)
    ensures SameBeyondId(WithTxid(payload, first), payload)
    ensures Rcode(WithTxid(payload, first)) == Rcode(payload)
    ensures IsTruncated(WithTxid(payload, first)) == IsTruncated(payload)
  {
    if |payload| >= TXID_LENGTH {
      var stamped := WithTxid(payload, first);
      assert stamped[2..] == payload[2..];
      if |payload| >= HEADER_LENGTH {
        assert stamped[2] == stamped[2..][0] == payload[2..][0] == payload[2];
        assert stamped[3] == stamped[2..][1] == payload[2..][1] == payload[3];
      }
    }
  }

  /** Giving a stamped message its own id back restores it, octet for octet. */
  lemma RestoringTheId(payload: bytes, other: int)
    ensures WithTxid(WithTxid(payload, other), Txid(payload)) == payload
  {
    StampIsOpaque(payload, other, Txid(payload));
    if |payload| >= TXID_LENGTH {
      var id := Txid(payload);
      assert id / 256 == payload[0] && id % 256 == payload[1];
      assert payload == [payload[0], payload[1]] + payload[2..];
    }
  }
}
