/**
 * GoBackN/src/main/java/transport/Receiver.java: the cumulative-ACK
 * receiver. It delivers the packet it expects, keeps one ACK packet object
 * that it updates in place, and sends that ACK in reply to every packet.
 */
module GoBackNReceiver {
  import opened Packets
  import opened Hosts
  import opened Checksums
  import SumChecksum
  import GoBackN
  import GoBackNSender

  const Checksum: Scheme := ComplementOfSum

  class Receiver {
    var expectedSeqNum: int
    /** The stored ACK, resent unchanged for every packet that is not delivered. */
    var sendPacket: Packet
    /** The payloads handed to the application so far, in order. */
    ghost var delivered: seq<string>

    /**
     * The k-th delivery was the packet numbered k, so the expected number
     * counts the deliveries; the stored ACK is an intact, payload-free packet
     * numbered 0 that acknowledges the last delivery, or 0 before the first.
     */
    ghost predicate Valid()
      reads this, sendPacket
    {
      expectedSeqNum == |delivered| &&
      (sendPacket.Value() == MakeAck(Checksum, expectedSeqNum - 1) ||
       (expectedSeqNum == 0 && sendPacket.Value() == MakeAck(Checksum, 0)))
    }

    /** The stored ACK acknowledges exactly the deliveries made: packets 0 .. expectedSeqNum - 1. */
    ghost predicate Acknowledges()
      reads this, sendPacket
    {
      sendPacket.Value() == MakeAck(Checksum, expectedSeqNum - 1)
    }

    /**
     * `Receiver(entity)` followed by `init()` as written: nothing delivered
     * yet, but the stored ACK acknowledges packet 0.
     */
    constructor ()
      ensures Valid() && fresh(sendPacket) && delivered == []
      ensures expectedSeqNum == 0 && sendPacket.Value() == MakeAck(Checksum, 0)
      ensures !Acknowledges()
    {
      expectedSeqNum := 0;
      sendPacket := new Packet.WithoutPayload(0, 0, SumChecksum.AckChecksum(0, 0));
      delivered := [];
      new;
      assert sendPacket.Value() == MakeAck(Checksum, 0);
      assert MakeAck(Checksum, -1).acknum == -1;
    }

    /** `init()` with the initial ACK for -1 that acknowledges nothing. */
    constructor Intended()
      ensures Valid() && Acknowledges() && fresh(sendPacket) && delivered == []
      ensures expectedSeqNum == 0 && sendPacket.Value() == MakeAck(Checksum, -1)
    {
      expectedSeqNum := 0;
      sendPacket := new Packet.WithoutPayload(0, -1, SumChecksum.AckChecksum(0, -1));
      delivered := [];
    }

    /**
     * `input(packet)`: the intact packet with the expected number is
     * delivered and acknowledged, and the expected number moves on; any
     * other packet is answered with the stored ACK, unchanged. Either way
     * exactly one intact ACK numbered 0 is sent.
     */
    method Input(packet: PacketValue) returns (actions: seq<Action>)
      requires Valid()
      modifies this, sendPacket
      ensures Valid() && sendPacket == old(sendPacket)
      ensures !Corrupt(Checksum, packet) && packet.seqnum == old(expectedSeqNum) ==>
                expectedSeqNum == old(expectedSeqNum) + 1 && delivered == old(delivered) + [packet.payload] &&
                sendPacket.Value() == MakeAck(Checksum, old(expectedSeqNum)) &&
                actions == [Deliver(packet.payload), Send(sendPacket.Value())]
      ensures Corrupt(Checksum, packet) || packet.seqnum != old(expectedSeqNum) ==>
                expectedSeqNum == old(expectedSeqNum) && delivered == old(delivered) &&
                sendPacket.Value() == old(sendPacket.Value()) && actions == [Send(sendPacket.Value())]
      ensures old(Acknowledges()) || |delivered| > 0 ==> Acknowledges()
      ensures sendPacket.Value().seqnum == 0 && sendPacket.Value().payload == "" && !Corrupt(Checksum, sendPacket.Value())
    {
      if !Checksums.Corrupt(Checksum, packet) && packet.seqnum == expectedSeqNum {
        actions := [Deliver(packet.payload)];
        delivered := delivered + [packet.payload];
        sendPacket.SetAcknum(expectedSeqNum);
        sendPacket.SetChecksum(SumChecksum.AckChecksum(sendPacket.seqnum, sendPacket.acknum));
        ghost var ack := MakeAck(Checksum, expectedSeqNum);
        assert sendPacket.Value() == ack;
        actions := actions + [Send(sendPacket.Value())];
        expectedSeqNum := expectedSeqNum + 1;
        assert Acknowledges();
      } else {
        ghost var ack := if Acknowledges() then MakeAck(Checksum, expectedSeqNum - 1) else MakeAck(Checksum, 0);
        assert sendPacket.Value() == ack;
        actions := [Send(sendPacket.Value())];
      }
    }
  }

  /**
   * The initial ACK the receiver sends before any delivery, for instance in
   * reply to a corrupted packet 0, is intact and acknowledges packet 0: the
   * throwing Go-Back-N sender, starting at base 0, moves its base to 1 on it,
   * and then never resends packet 0, although it was never delivered.
   */
  lemma InitialAckSkipsPacketZero()
    ensures var ack := MakeAck(Checksum, 0);
            !Corrupt(GoBackNSender.Checksum, ack) &&
            GoBackN.Max(GoBackNSender.Start, ack.acknum + 1) == GoBackNSender.Start + 1
  {
  }

  /** The intended initial ACK, for -1, leaves that sender's base where it is. */
  lemma IntendedInitialAckKeepsBase()
    ensures var ack := MakeAck(Checksum, -1);
            !Corrupt(GoBackNSender.Checksum, ack) &&
            GoBackN.Max(GoBackNSender.Start, ack.acknum + 1) == GoBackNSender.Start
  {
  }
}
