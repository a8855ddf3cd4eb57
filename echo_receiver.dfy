/**
 * src/main/java/transport/Receiver.java: the stop-and-wait receiver that
 * answers a bad packet with an ACK echoing the sequence number the packet
 * carries. Its checksum class is not part of this model, so the scheme is
 * a parameter.
 */
module EchoReceiver {
  import opened Packets
  import opened Hosts
  import opened Checksums
  import opened AlternatingBit
  import HandlerSender

  datatype ReceiverState = WaitForPacket(expected: int)

  /**
   * `input(packet)`: the intact packet with the awaited bit is delivered
   * once, acknowledged and the awaited bit flips; any other packet gets an
   * ACK for whatever sequence number it carries, corrupted or not, and the
   * state stays.
   */
  function HandleInput(scheme: Scheme, st: ReceiverState, packet: PacketValue): (r: Transition<ReceiverState>)
    ensures !Corrupt(scheme, packet) && packet.seqnum == st.expected ==>
              r.next == WaitForPacket(Flip(st.expected)) &&
              r.actions == [Deliver(packet.payload), Send(MakeAck(scheme, st.expected))]
    ensures Corrupt(scheme, packet) || packet.seqnum != st.expected ==>
              r.next == st && r.actions == [Send(MakeAck(scheme, packet.seqnum))]
    ensures IsBit(st.expected) ==> IsBit(r.next.expected)
    ensures var last := r.actions[|r.actions| - 1];
            last.Send? && last.packet.seqnum == 0 && !Corrupt(scheme, last.packet)
  {
    if Corrupt(scheme, packet) || packet.seqnum != st.expected then
      Transition(st, [Send(MakeAck(scheme, packet.seqnum))])
    else
      Transition(WaitForPacket(Flip(st.expected)), [Deliver(packet.payload), Send(MakeAck(scheme, st.expected))])
  }

  /**
   * The sender sends message "aa" as packet 0 and the channel garbles its
   * payload. The receiver sees the corruption and delivers nothing, but its
   * echoed ACK for 0 is intact, so the sender accepts it and moves on to
   * the next message: "aa" is lost.
   */
  lemma GarbledPacketAcknowledged(scheme: Scheme)
    ensures var p := MakePacket(scheme, 0, "aa");
            var q := Corrupted(p, PayloadGarbled);
            var r := HandleInput(scheme, WaitForPacket(0), q);
            var ack := r.actions[|r.actions| - 1].packet;
            var sender := HandlerSender.WaitForAcknowledgementPacket(0, p);
            Corrupt(scheme, q) && Deliver("aa") !in r.actions && Deliver(q.payload) !in r.actions &&
            HandlerSender.HandleInput(scheme, sender, ack).next == HandlerSender.WaitForApplicationMessage(1)
  {
    var p := MakePacket(scheme, 0, "aa");
    CorruptionDetectedIff(scheme, p, PayloadGarbled);
    var q := Corrupted(p, PayloadGarbled);
    assert q.payload == "=a" != p.payload;
  }

  class Receiver {
    const scheme: Scheme
    var state: ReceiverState

    /** `Receiver(entity)` followed by `init()`: awaiting bit 0. */
    constructor (scheme: Scheme)
      ensures this.scheme == scheme && state == WaitForPacket(0)
    {
      this.scheme := scheme;
      state := WaitForPacket(0);
    }

    /** `input(packet)`: `state = state.input(packet)`. */
    method Input(packet: PacketValue) returns (actions: seq<Action>)
      modifies this
      ensures Transition(state, actions) == HandleInput(scheme, old(state), packet)
    {
      var r := HandleInput(scheme, state, packet);
      state, actions := r.next, r.actions;
    }
  }
}
