/**
 * StopAndWait/src/main/java/transport/Checksum.java: the 32-bit wrapping
 * weighted sum 33 * seq + 57 * ack + (sum of the payload characters).
 */
module WeightedChecksum {
  import opened Wrappers
  import opened JavaInt
  import opened Packets

  const SeqWeight: int := 33
  const AckWeight: int := 57

  /** `compute(seq, ack, payload)`: each product and sum wraps as Java `int` arithmetic does. */
  function Checksum(seqNo: int, ackNo: int, payload: Option<string>): (r: Int32)
    ensures (r - (SeqWeight * seqNo + AckWeight * ackNo + PayloadSum(payload))) % Modulus == 0
  {
    Wrap(SeqWeight * seqNo + AckWeight * ackNo + PayloadSum(payload))
  }

  /** `compute(seq, ack)`: a null payload contributes nothing, like an empty one. */
  function AckChecksum(seqNo: int, ackNo: int): (r: Int32)
    ensures r == Checksum(seqNo, ackNo, Some(""))
  {
    Checksum(seqNo, ackNo, None)
  }

  /**
   * `corrupt(packet)`: the stored checksum disagrees with the recomputed one.
   * A packet is intact exactly when its checksum is an int congruent to the
   * weighted sum of its fields modulo 2^32.
   */
  function Corrupt(p: PacketValue): (b: bool)
    ensures !b <==> MinValue <= p.checksum <= MaxValue &&
                    (p.checksum - (SeqWeight * p.seqnum + AckWeight * p.acknum + CharSum(p.payload))) % Modulus == 0
  {
    var c := Checksum(p.seqnum, p.acknum, Some(p.payload));
    if MinValue <= p.checksum <= MaxValue then
      Int32Congruent(p.checksum, c);
      p.checksum != c
    else
      p.checksum != c
  }

  lemma ChecksumEqualIff(s1: int, a1: int, p1: Option<string>, s2: int, a2: int, p2: Option<string>)
    ensures Checksum(s1, a1, p1) == Checksum(s2, a2, p2)
        <==> ((SeqWeight * s1 + AckWeight * a1 + PayloadSum(p1))
              - (SeqWeight * s2 + AckWeight * a2 + PayloadSum(p2))) % Modulus == 0
  {
    WrapEqualIff(SeqWeight * s1 + AckWeight * a1 + PayloadSum(p1), SeqWeight * s2 + AckWeight * a2 + PayloadSum(p2));
  }

  /**
   * An odd weight has an inverse modulo 2^32 (`inverse` with weight * inverse = 1 + k * 2^32),
   * so a weighted difference is a multiple of 2^32 exactly when the difference is.
   */
  lemma OddWeightCancels(weight: int, inverse: int, k: int, d: int)
    requires weight * inverse == 1 + k * Modulus
    ensures (weight * d) % Modulus == 0 <==> d % Modulus == 0
  {
    if d % Modulus == 0 {
      var q := d / Modulus;
      assert weight * d == (weight * q) * Modulus;
      MultipleMod(weight * q);
    }
    if (weight * d) % Modulus == 0 {
      var j := (weight * d) / Modulus;
      assert weight * d == j * Modulus;
      calc {
        d;
        d * (weight * inverse) - d * k * Modulus;
        (weight * d) * inverse - d * k * Modulus;
        { assert (weight * d) * inverse == (j * Modulus) * inverse; }
        (j * inverse - d * k) * Modulus;
      }
      MultipleMod(j * inverse - d * k);
    }
  }

  lemma StampedIsIntact(seqNo: int, ackNo: int, payload: string)
    ensures !Corrupt(PacketValue(seqNo, ackNo, Checksum(seqNo, ackNo, Some(payload)), payload))
  {
  }

  /** 33 is odd, so replacing only the sequence number is detected exactly when it changes modulo 2^32. */
  lemma SeqnumChangeDetected(p: PacketValue, s: int)
    requires !Corrupt(p)
    ensures Corrupt(p.(seqnum := s)) <==> (s - p.seqnum) % Modulus != 0
  {
    ChecksumEqualIff(s, p.acknum, Some(p.payload), p.seqnum, p.acknum, Some(p.payload));
    assert (SeqWeight * s + AckWeight * p.acknum + CharSum(p.payload))
         - (SeqWeight * p.seqnum + AckWeight * p.acknum + CharSum(p.payload))
        == SeqWeight * (s - p.seqnum);
    OddWeightCancels(SeqWeight, 1041204193, 8, s - p.seqnum);
  }

  /** 57 is odd, so replacing only the acknowledgement number is detected exactly when it changes modulo 2^32. */
  lemma AcknumChangeDetected(p: PacketValue, a: int)
    requires !Corrupt(p)
    ensures Corrupt(p.(acknum := a)) <==> (a - p.acknum) % Modulus != 0
  {
    ChecksumEqualIff(p.seqnum, a, Some(p.payload), p.seqnum, p.acknum, Some(p.payload));
    assert (SeqWeight * p.seqnum + AckWeight * a + CharSum(p.payload))
         - (SeqWeight * p.seqnum + AckWeight * p.acknum + CharSum(p.payload))
        == AckWeight * (a - p.acknum);
    OddWeightCancels(AckWeight, 3089362441, 41, a - p.acknum);
  }

  lemma PayloadChangeDetected(p: PacketValue, q: string)
    requires !Corrupt(p)
    ensures Corrupt(p.(payload := q)) <==> (CharSum(q) - CharSum(p.payload)) % Modulus != 0
  {
    ChecksumEqualIff(p.seqnum, p.acknum, Some(q), p.seqnum, p.acknum, Some(p.payload));
  }

  /** Unlike the complement-of-sum checksum, this one tells sequence and acknowledgement numbers apart. */
  lemma NotSymmetric()
    ensures Checksum(1, 0, None) != Checksum(0, 1, None)
  {
    WrapOfInt32(33);
    WrapOfInt32(57);
  }
}
