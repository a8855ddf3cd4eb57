/**
 * StopAndWait/src/transport/Sender.java: the stop-and-wait sender whose
 * state is an enum beside two mutable fields, the bit `seq` and the packet
 * awaiting its ACK. Its checksum class is not part of this model, so the
 * scheme is a parameter. It makes the same moves as the handler-object
 * sender, with a 40-unit timer.
 */
module EnumSender {
  import opened Wrappers
  import opened Packets
  import opened Hosts
  import opened Checksums
  import opened AlternatingBit
  import HandlerSender

  const TimerLength: real := 40.0

  datatype SenderState = WaitMsg | WaitAck

  class Sender {
    const scheme: Scheme
    var state: SenderState
    var seqNo: int
    /** `sendPacket`, null until the first message. */
    var sendPacket: Option<PacketValue>

    /** The bit is 0 or 1 and, awaiting an ACK, the stored packet is the intact data packet numbered with it. */
    ghost predicate Valid()
      reads this
    {
      IsBit(seqNo) &&
      (state == WaitAck ==>
         sendPacket.Some? && sendPacket.value.seqnum == seqNo && sendPacket.value.acknum == 0 &&
         !Corrupt(scheme, sendPacket.value))
    }

    /** The handler-object state these fields stand for. */
    ghost function Abstract(): (st: HandlerSender.SenderState)
      reads this
      requires Valid()
      ensures HandlerSender.Valid(scheme, st) && st.seqNo == seqNo
      ensures st.WaitForAcknowledgementPacket? <==> state == WaitAck
    {
      match state
      case WaitMsg => HandlerSender.WaitForApplicationMessage(seqNo)
      case WaitAck => HandlerSender.WaitForAcknowledgementPacket(seqNo, sendPacket.value)
    }

    /** `Sender(entity)` followed by `init()`: awaiting a message with bit 0 and no packet. */
    constructor (scheme: Scheme)
      ensures Valid() && this.scheme == scheme
      ensures state == WaitMsg && seqNo == 0 && sendPacket == None
      ensures Abstract() == HandlerSender.WaitForApplicationMessage(0)
    {
      this.scheme := scheme;
      state, seqNo, sendPacket := WaitMsg, 0, None;
    }

    /**
     * `output(message)`: awaiting an ACK the message is dropped (with a
     * logged warning) and nothing changes; otherwise the packet numbered
     * with the bit is stored, sent, and the timer started.
     */
    method Output(message: string) returns (actions: seq<Action>)
      requires Valid()
      modifies this
      ensures Valid() && seqNo == old(seqNo)
      ensures old(state) == WaitAck ==> state == WaitAck && sendPacket == old(sendPacket) && actions == []
      ensures old(state) == WaitMsg ==>
                state == WaitAck && sendPacket == Some(MakePacket(scheme, seqNo, message)) &&
                actions == [Send(sendPacket.value), StartTimer(TimerLength)]
      ensures Transition(Abstract(), actions) == HandlerSender.HandleOutput(scheme, TimerLength, old(Abstract()), message)
    {
      if state != WaitMsg {
        return [];
      }
      sendPacket := Some(MakePacket(scheme, seqNo, message));
      actions := [Send(sendPacket.value), StartTimer(TimerLength)];
      state := WaitAck;
    }

    /**
     * `input(packet)`: only while awaiting an ACK, and only for an intact ACK
     * of the bit, the timer is stopped, the sender awaits a message again and
     * the bit flips; otherwise nothing changes.
     */
    method Input(packet: PacketValue) returns (actions: seq<Action>)
      requires Valid()
      modifies this
      ensures Valid() && sendPacket == old(sendPacket)
      ensures old(state) == WaitAck && HandlerSender.AcceptsAck(scheme, old(seqNo), packet) ==>
                state == WaitMsg && seqNo == Flip(old(seqNo)) && actions == [StopTimer]
      ensures !(old(state) == WaitAck && HandlerSender.AcceptsAck(scheme, old(seqNo), packet)) ==>
                state == old(state) && seqNo == old(seqNo) && actions == []
      ensures Transition(Abstract(), actions) == HandlerSender.HandleInput(scheme, old(Abstract()), packet)
    {
      if state != WaitAck {
        return [];
      }
      if Corrupt(scheme, packet) || packet.acknum != seqNo {
        return [];
      }
      actions := [StopTimer];
      state := WaitMsg;
      seqNo := Flip(seqNo);
    }

    /** `timerInterrupt()`: awaiting an ACK, resends the stored packet and restarts the timer; otherwise ignored. */
    method TimerInterrupt() returns (actions: seq<Action>)
      requires Valid()
      ensures state == WaitAck ==> actions == [Send(sendPacket.value), StartTimer(TimerLength)]
      ensures state == WaitMsg ==> actions == []
      ensures Transition(Abstract(), actions) == HandlerSender.HandleTimerInterrupt(TimerLength, Abstract())
    {
      if state != WaitAck {
        return [];
      }
      actions := [Send(sendPacket.value), StartTimer(TimerLength)];
    }
  }
}
