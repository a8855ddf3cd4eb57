/**
 * The checksum a host uses. Hosts whose own `Checksum` class is part of this
 * model use it directly; the others take the scheme as a parameter.
 */
module Checksums {
  import opened Wrappers
  import opened JavaInt
  import opened Packets
  import SumChecksum
  import WeightedChecksum

  datatype Scheme = ComplementOfSum | WeightedSum

  /** `compute(seq, ack, payload)` of the scheme: the residue each `Checksum` class promises. */
  function Compute(scheme: Scheme, seqNo: int, ackNo: int, payload: Option<string>): (r: Int32)
    ensures scheme == ComplementOfSum ==> (r + 1 + seqNo + ackNo + PayloadSum(payload)) % Modulus == 0
    ensures scheme == WeightedSum ==>
              (r - (WeightedChecksum.SeqWeight * seqNo + WeightedChecksum.AckWeight * ackNo + PayloadSum(payload))) % Modulus == 0
  {
    match scheme
    case ComplementOfSum => SumChecksum.Checksum(seqNo, ackNo, payload)
    case WeightedSum => WeightedChecksum.Checksum(seqNo, ackNo, payload)
  }

  /** `corrupt(packet)` of the scheme: the same verdict as that scheme's own `Checksum.corrupt`. */
  function Corrupt(scheme: Scheme, p: PacketValue): (b: bool)
    ensures scheme == ComplementOfSum ==> (b <==> SumChecksum.Corrupt(p))
    ensures scheme == WeightedSum ==> (b <==> WeightedChecksum.Corrupt(p))
  {
    p.checksum != Compute(scheme, p.seqnum, p.acknum, Some(p.payload))
  }

  /** `makePacket(seq, payload)` and the handlers' `new Packet(seq, 0, compute(seq, 0, data), data)`. */
  function MakePacket(scheme: Scheme, seqNo: int, payload: string): (p: PacketValue)
    ensures p.seqnum == seqNo && p.acknum == 0 && p.payload == payload
    ensures !Corrupt(scheme, p)
  {
    PacketValue(seqNo, 0, Compute(scheme, seqNo, 0, Some(payload)), payload)
  }

  /** An acknowledgement `new Packet(0, ack, compute(0, ack))`: empty payload, never corrupt. */
  function MakeAck(scheme: Scheme, ackNo: int): (p: PacketValue)
    ensures p.seqnum == 0 && p.acknum == ackNo && p.payload == ""
    ensures !Corrupt(scheme, p)
  {
    var check := match scheme
      case ComplementOfSum => SumChecksum.AckChecksum(0, ackNo)
      case WeightedSum => WeightedChecksum.AckChecksum(0, ackNo);
    PacketValue(0, ackNo, check, "")
  }

  lemma SeqnumChangeDetected(scheme: Scheme, p: PacketValue, s: int)
    requires !Corrupt(scheme, p)
    ensures Corrupt(scheme, p.(seqnum := s)) <==> (s - p.seqnum) % Modulus != 0
  {
    match scheme
    case ComplementOfSum => SumChecksum.SeqnumChangeDetected(p, s);
    case WeightedSum => WeightedChecksum.SeqnumChangeDetected(p, s);
  }

  lemma AcknumChangeDetected(scheme: Scheme, p: PacketValue, a: int)
    requires !Corrupt(scheme, p)
    ensures Corrupt(scheme, p.(acknum := a)) <==> (a - p.acknum) % Modulus != 0
  {
    match scheme
    case ComplementOfSum => SumChecksum.AcknumChangeDetected(p, a);
    case WeightedSum => WeightedChecksum.AcknumChangeDetected(p, a);
  }

  lemma PayloadChangeDetected(scheme: Scheme, p: PacketValue, q: string)
    requires !Corrupt(scheme, p)
    ensures Corrupt(scheme, p.(payload := q)) <==> (CharSum(q) - CharSum(p.payload)) % Modulus != 0
  {
    match scheme
    case ComplementOfSum => SumChecksum.PayloadChangeDetected(p, q);
    case WeightedSum => WeightedChecksum.PayloadChangeDetected(p, q);
  }
}
