/**
 * GoBackN/src/main/java/transport/Checksum.java: the bitwise complement of the
 * 32-bit wrapping sum of the sequence number, the acknowledgement number and
 * every payload character.
 */
module SumChecksum {
  import opened Wrappers
  import opened JavaInt
  import opened Packets

  /** `compute(seq, ack, payload)` as a value: the int that is -1 - (seq + ack + characters) modulo 2^32. */
  function Checksum(seqNo: int, ackNo: int, payload: Option<string>): (r: Int32)
    ensures (r + 1 + seqNo + ackNo + PayloadSum(payload)) % Modulus == 0
  {
    Complement(Wrap(seqNo + ackNo + PayloadSum(payload)))
  }

  /** `compute(seq, ack, payload)` as the source computes it: a running `int` total, then `~total`. */
  method Compute(seqNo: int, ackNo: int, payload: Option<string>) returns (r: Int32)
    ensures r == Checksum(seqNo, ackNo, payload)
    ensures r + Wrap(seqNo + ackNo + PayloadSum(payload)) == -1
  {
    var total := Wrap(seqNo + ackNo);
    if payload.Some? {
      var chars := payload.value;
      for i := 0 to |chars|
        invariant total == Wrap(seqNo + ackNo + CharSum(chars[..i]))
      {
        assert chars[..i + 1][..i] == chars[..i];
        WrapAdd(seqNo + ackNo + CharSum(chars[..i]), chars[i] as int);
        total := Wrap(total + chars[i] as int);
      }
      assert chars[..|chars|] == chars;
    }
    r := Complement(total);
  }

  /** `compute(seq, ack)`: the checksum of a packet without payload, the same as for an empty one. */
  function AckChecksum(seqNo: int, ackNo: int): (r: Int32)
    ensures r == Checksum(seqNo, ackNo, Some(""))
  {
    Checksum(seqNo, ackNo, None)
  }

  /**
   * `corrupt(packet)`: the stored checksum disagrees with the recomputed one.
   * A packet is intact exactly when its checksum is an int and adding it to
   * the sum of the other fields gives -1 modulo 2^32.
   */
  function Corrupt(p: PacketValue): (b: bool)
    ensures !b <==> MinValue <= p.checksum <= MaxValue &&
                    (p.checksum + 1 + p.seqnum + p.acknum + CharSum(p.payload)) % Modulus == 0
  {
    var c := Checksum(p.seqnum, p.acknum, Some(p.payload));
    if MinValue <= p.checksum <= MaxValue then
      Int32Congruent(p.checksum, c);
      p.checksum != c
    else
      p.checksum != c
  }

  lemma NullPayloadIsEmptyPayload(seqNo: int, ackNo: int)
    ensures Checksum(seqNo, ackNo, None) == Checksum(seqNo, ackNo, Some(""))
  {
  }

  /** The sum does not tell the sequence number from the acknowledgement number. */
  lemma Symmetric(seqNo: int, ackNo: int, payload: Option<string>)
    ensures Checksum(seqNo, ackNo, payload) == Checksum(ackNo, seqNo, payload)
  {
    assert seqNo + ackNo == ackNo + seqNo;
  }

  /** Complement is one-to-one, so two checksums agree exactly when the sums agree modulo 2^32. */
  lemma ChecksumEqualIff(s1: int, a1: int, p1: Option<string>, s2: int, a2: int, p2: Option<string>)
    ensures Checksum(s1, a1, p1) == Checksum(s2, a2, p2)
        <==> ((s1 + a1 + PayloadSum(p1)) - (s2 + a2 + PayloadSum(p2))) % Modulus == 0
  {
    WrapEqualIff(s1 + a1 + PayloadSum(p1), s2 + a2 + PayloadSum(p2));
  }

  /** A packet stamped with the checksum of its own fields is not corrupt. */
  lemma StampedIsIntact(seqNo: int, ackNo: int, payload: string)
    ensures !Corrupt(PacketValue(seqNo, ackNo, Checksum(seqNo, ackNo, Some(payload)), payload))
  {
  }

  /** Replacing only the sequence number is detected exactly when the new one differs modulo 2^32. */
  lemma SeqnumChangeDetected(p: PacketValue, s: int)
    requires !Corrupt(p)
    ensures Corrupt(p.(seqnum := s)) <==> (s - p.seqnum) % Modulus != 0
  {
    ChecksumEqualIff(s, p.acknum, Some(p.payload), p.seqnum, p.acknum, Some(p.payload));
  }

  /** Replacing only the acknowledgement number is detected exactly when the new one differs modulo 2^32. */
  lemma AcknumChangeDetected(p: PacketValue, a: int)
    requires !Corrupt(p)
    ensures Corrupt(p.(acknum := a)) <==> (a - p.acknum) % Modulus != 0
  {
    ChecksumEqualIff(p.seqnum, a, Some(p.payload), p.seqnum, p.acknum, Some(p.payload));
  }

  /** Replacing only the payload is detected exactly when the character sums differ modulo 2^32. */
  lemma PayloadChangeDetected(p: PacketValue, q: string)
    requires !Corrupt(p)
    ensures Corrupt(p.(payload := q)) <==> (CharSum(q) - CharSum(p.payload)) % Modulus != 0
  {
    ChecksumEqualIff(p.seqnum, p.acknum, Some(q), p.seqnum, p.acknum, Some(p.payload));
  }
}
