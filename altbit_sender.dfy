/**
 * StopAndWait/src/main/java/transport/Sender.java and
 * src/main/java/transport/Sender.java: the stop-and-wait sender as a finite
 * state machine whose states are immutable handler objects. Each handler
 * returns the next state, and the sender overwrites its `state` field with
 * it. The two files have the same transitions and timer length; the
 * checksum is a parameter, since only the first file's `Checksum` class is
 * part of this model.
 */
module HandlerSender {
  import opened Packets
  import opened Hosts
  import opened Checksums
  import opened AlternatingBit

  const TimerLength: real := 50.0

  /** `WaitForApplicationMessage(seq)` and `WaitForAcknowledgementPacket(seq, packet)`. */
  datatype SenderState =
    | WaitForApplicationMessage(seqNo: int)
    | WaitForAcknowledgementPacket(seqNo: int, packet: PacketValue)

  /** The bit is 0 or 1, and a packet awaiting its ACK is the intact data packet numbered with that bit. */
  predicate Valid(scheme: Scheme, st: SenderState)
  {
    IsBit(st.seqNo) &&
    (st.WaitForAcknowledgementPacket? ==>
       st.packet.seqnum == st.seqNo && st.packet.acknum == 0 && !Corrupt(scheme, st.packet))
  }

  /** An intact ACK for the packet numbered seq. */
  predicate AcceptsAck(scheme: Scheme, seqNo: int, p: PacketValue)
  {
    !Corrupt(scheme, p) && p.acknum == seqNo
  }

  /**
   * `output(message)`: awaiting a message, the sender sends it once in a
   * packet numbered with its bit, starts the timer and awaits that packet's
   * ACK; awaiting an ACK, the default handler drops the message.
   */
  function HandleOutput(scheme: Scheme, timerLength: real, st: SenderState, message: string): (r: Transition<SenderState>)
    ensures st.WaitForApplicationMessage? ==>
              r.next.WaitForAcknowledgementPacket? && var p := r.next.packet;
              r.next == WaitForAcknowledgementPacket(st.seqNo, p) &&
              p.seqnum == st.seqNo && p.acknum == 0 && p.payload == message && !Corrupt(scheme, p) &&
              r.actions == [Send(p), StartTimer(timerLength)]
    ensures st.WaitForAcknowledgementPacket? ==> r.next == st && r.actions == []
  {
    match st
    case WaitForApplicationMessage(seqNo) =>
      var packet := MakePacket(scheme, seqNo, message);
      Transition(WaitForAcknowledgementPacket(seqNo, packet), [Send(packet), StartTimer(timerLength)])
    case WaitForAcknowledgementPacket(_, _) => Transition(st, [])
  }

  /**
   * `input(packet)`: awaiting an ACK, an intact ACK for the sender's bit
   * stops the timer and flips the bit; anything else, and any packet while
   * awaiting a message, is ignored.
   */
  function HandleInput(scheme: Scheme, st: SenderState, packet: PacketValue): (r: Transition<SenderState>)
    ensures st.WaitForAcknowledgementPacket? && AcceptsAck(scheme, st.seqNo, packet) ==>
              r.next == WaitForApplicationMessage(Flip(st.seqNo)) && r.actions == [StopTimer]
    ensures !(st.WaitForAcknowledgementPacket? && AcceptsAck(scheme, st.seqNo, packet)) ==>
              r.next == st && r.actions == []
  {
    match st
    case WaitForApplicationMessage(_) => Transition(st, [])
    case WaitForAcknowledgementPacket(seqNo, _) =>
      if Corrupt(scheme, packet) || packet.acknum != seqNo then Transition(st, [])
      else Transition(WaitForApplicationMessage(Flip(seqNo)), [StopTimer])
  }

  /** `timerInterrupt()`: awaiting an ACK, the stored packet is resent unchanged and the timer restarted; otherwise ignored. */
  function HandleTimerInterrupt(timerLength: real, st: SenderState): (r: Transition<SenderState>)
    ensures r.next == st
    ensures st.WaitForAcknowledgementPacket? ==> r.actions == [Send(st.packet), StartTimer(timerLength)]
    ensures st.WaitForApplicationMessage? ==> r.actions == []
  {
    match st
    case WaitForApplicationMessage(_) => Transition(st, [])
    case WaitForAcknowledgementPacket(_, packet) => Transition(st, [Send(packet), StartTimer(timerLength)])
  }

  /** Every handler keeps the state valid, so the bit stays 0 or 1. */
  lemma HandlersPreserveValid(scheme: Scheme, timerLength: real, st: SenderState, message: string, packet: PacketValue)
    requires Valid(scheme, st)
    ensures Valid(scheme, HandleOutput(scheme, timerLength, st, message).next)
    ensures Valid(scheme, HandleInput(scheme, st, packet).next)
    ensures Valid(scheme, HandleTimerInterrupt(timerLength, st).next)
    ensures IsBit(HandleInput(scheme, st, packet).next.seqNo)
  {
  }

  /** The bit changes only on an accepted ACK, and then it flips. */
  lemma BitFlipsOnlyOnAck(scheme: Scheme, timerLength: real, st: SenderState, message: string, packet: PacketValue)
    requires Valid(scheme, st)
    ensures HandleOutput(scheme, timerLength, st, message).next.seqNo == st.seqNo
    ensures HandleTimerInterrupt(timerLength, st).next.seqNo == st.seqNo
    ensures HandleInput(scheme, st, packet).next.seqNo != st.seqNo <==>
            st.WaitForAcknowledgementPacket? && AcceptsAck(scheme, st.seqNo, packet)
  {
  }

  class Sender {
    const scheme: Scheme
    var state: SenderState

    /** `Sender(entity)`, whose state is already the one `init()` sets. */
    constructor (scheme: Scheme)
      ensures this.scheme == scheme && state == WaitForApplicationMessage(0) && Valid(scheme, state)
    {
      this.scheme := scheme;
      state := WaitForApplicationMessage(0);
    }

    /** `init()`: awaiting a message with bit 0 again. */
    method Init()
      modifies this
      ensures state == WaitForApplicationMessage(0) && Valid(scheme, state)
    {
      state := WaitForApplicationMessage(0);
    }

    /** `output(message)`: `state = state.output(message)`. */
    method Output(message: string) returns (actions: seq<Action>)
      requires Valid(scheme, state)
      modifies this
      ensures Valid(scheme, state)
      ensures Transition(state, actions) == HandleOutput(scheme, TimerLength, old(state), message)
    {
      var r := HandleOutput(scheme, TimerLength, state, message);
      HandlersPreserveValid(scheme, TimerLength, state, message, PacketValue(0, 0, 0, ""));
      state, actions := r.next, r.actions;
    }

    /** `input(packet)`: `state = state.input(packet)`. */
    method Input(packet: PacketValue) returns (actions: seq<Action>)
      requires Valid(scheme, state)
      modifies this
      ensures Valid(scheme, state)
      ensures Transition(state, actions) == HandleInput(scheme, old(state), packet)
    {
      var r := HandleInput(scheme, state, packet);
      state, actions := r.next, r.actions;
    }

    /** `timerInterrupt()`: `state = state.timerInterrupt()`. */
    method TimerInterrupt() returns (actions: seq<Action>)
      requires Valid(scheme, state)
      modifies this
      ensures Valid(scheme, state)
      ensures Transition(state, actions) == HandleTimerInterrupt(TimerLength, old(state))
    {
      var r := HandleTimerInterrupt(TimerLength, state);
      state, actions := r.next, r.actions;
    }
  }
}
