/**
 * StopAndWait/src/main/java/transport/Receiver.java: the stop-and-wait
 * receiver, one handler state `WaitForPacket(expected)`. A bad packet is
 * answered with the ACK for the other bit, that is for the packet before
 * the awaited one. It uses the weighted checksum.
 */
module OtherBitReceiver {
  import opened Packets
  import opened Hosts
  import opened Checksums
  import opened AlternatingBit
  import HandlerSender

  const Checksum: Scheme := WeightedSum

  datatype ReceiverState = WaitForPacket(expected: int)

  /** The intact packet with the awaited bit. */
  predicate Awaited(st: ReceiverState, p: PacketValue)
  {
    !Corrupt(Checksum, p) && p.seqnum == st.expected
  }

  /**
   * `input(packet)`: the awaited packet is delivered once, acknowledged and
   * the awaited bit flips; any other packet gets the ACK for the other bit
   * and the state stays. Either way exactly one intact, payload-free ACK
   * numbered 0 is sent, last.
   */
  function HandleInput(st: ReceiverState, packet: PacketValue): (r: Transition<ReceiverState>)
    ensures Awaited(st, packet) ==>
              r.next == WaitForPacket(Flip(st.expected)) &&
              r.actions == [Deliver(packet.payload), Send(MakeAck(Checksum, st.expected))]
    ensures !Awaited(st, packet) ==>
              r.next == st && r.actions == [Send(MakeAck(Checksum, Flip(st.expected)))]
    ensures IsBit(st.expected) ==> IsBit(r.next.expected)
    ensures var last := r.actions[|r.actions| - 1];
            last.Send? && last.packet.seqnum == 0 && last.packet.payload == "" && !Corrupt(Checksum, last.packet)
  {
    if Corrupt(Checksum, packet) || packet.seqnum != st.expected then
      var ackPrev := Flip(st.expected);
      Transition(st, [Send(MakeAck(Checksum, ackPrev))])
    else
      Transition(WaitForPacket(Flip(st.expected)), [Deliver(packet.payload), Send(MakeAck(Checksum, st.expected))])
  }

  /**
   * Paired with the handler-object sender awaiting the ACK for the bit the
   * receiver awaits (the packet in flight is not yet delivered), the reply
   * to any packet is accepted by the sender exactly when the receiver
   * delivered that packet.
   */
  lemma ReplyAcceptedIffDelivered(sender: HandlerSender.SenderState, st: ReceiverState, packet: PacketValue)
    requires sender.WaitForAcknowledgementPacket? && IsBit(sender.seqNo) && st.expected == sender.seqNo
    ensures var r := HandleInput(st, packet);
            var ack := r.actions[|r.actions| - 1].packet;
            HandlerSender.HandleInput(Checksum, sender, ack).next != sender <==> Deliver(packet.payload) in r.actions
  {
    var r := HandleInput(st, packet);
    if !Awaited(st, packet) {
      assert r.actions == [Send(MakeAck(Checksum, Flip(st.expected)))];
    }
  }

  class Receiver {
    var state: ReceiverState

    /** `Receiver(entity)`, whose state is already the one `init()` sets. */
    constructor ()
      ensures state == WaitForPacket(0)
    {
      state := WaitForPacket(0);
    }

    /** `init()`: awaiting bit 0 again. */
    method Init()
      modifies this
      ensures state == WaitForPacket(0)
    {
      state := WaitForPacket(0);
    }

    /** `input(packet)`: `state = state.input(packet)`. */
    method Input(packet: PacketValue) returns (actions: seq<Action>)
      modifies this
      ensures Transition(state, actions) == HandleInput(old(state), packet)
    {
      var r := HandleInput(state, packet);
      state, actions := r.next, r.actions;
    }
  }
}
