/**
 * GoBackN/src/transport/Sender.java: the Go-Back-N sender that starts at
 * sequence number 1, buffers up to 59 packets and drops an application
 * message when the buffer is full. Its checksum class is not part of this
 * model, so the scheme is a parameter.
 */
module GoBackNDroppingSender {
  import opened Wrappers
  import opened JavaInt
  import opened Packets
  import opened Hosts
  import opened Checksums
  import opened GoBackN

  const TimerLength: real := 50.0
  /** `BUFFER_SIZE`: the window and fifty more slots, plus one kept free. */
  const BufferSize: int := WindowSize + 50 + 1
  const Start: int := 1

  class Sender {
    const scheme: Scheme
    /** The oldest unacknowledged sequence number. */
    var base: int
    var nextSeqNum: int
    var buffer: array<Option<PacketValue>>
    /** The application messages accepted so far; message k travels with sequence number Start + k. */
    ghost var accepted: seq<string>

    ghost predicate Valid()
      reads this, buffer
    {
      buffer.Length == BufferSize && nextSeqNum <= base + BufferSize - 1 &&
      Buffered(buffer[..], scheme, Start, accepted, base, nextSeqNum)
    }

    /** `Sender(entity)` followed by `init()`: base and next sequence number 1, all slots empty. */
    constructor (scheme: Scheme)
      ensures Valid() && fresh(buffer)
      ensures this.scheme == scheme && base == Start && nextSeqNum == Start && accepted == []
      ensures forall i :: 0 <= i < buffer.Length ==> buffer[i] == None
    {
      this.scheme := scheme;
      base, nextSeqNum := Start, Start;
      buffer := new Option<PacketValue>[BufferSize](_ => None);
      accepted := [];
    }

    /** `index(seq)`: the slot of a sequence number, negative ones included. */
    function Index(s: int): (r: int)
      reads this
      requires buffer.Length > 0
      ensures 0 <= r < buffer.Length && r == Slot(s, buffer.Length)
    {
      PositiveModulo(s, buffer.Length)
    }

    /** `makePacket(seq, payload)`: a data packet stamped with its checksum. */
    function MakePacket(s: int, payload: string): (p: PacketValue)
      ensures p.seqnum == s && p.acknum == 0 && p.payload == payload
      ensures !Corrupt(scheme, p)
    {
      Checksums.MakePacket(scheme, s, payload)
    }

    /**
     * `output(message)`: a full buffer drops the message; otherwise it is
     * stored, sent if it falls inside the window, and the timer is started
     * if it is the first unacknowledged packet.
     */
    method Output(message: string) returns (actions: seq<Action>)
      requires Valid()
      modifies this, buffer
      ensures Valid() && buffer == old(buffer) && base == old(base)
      ensures Overflowing(old(base), old(nextSeqNum), BufferSize) ==>
                nextSeqNum == old(nextSeqNum) && accepted == old(accepted) &&
                buffer[..] == old(buffer[..]) && actions == []
      ensures !Overflowing(old(base), old(nextSeqNum), BufferSize) ==>
                var p := MakePacket(old(nextSeqNum), message);
                nextSeqNum == old(nextSeqNum) + 1 && accepted == old(accepted) + [message] &&
                buffer[..] == old(buffer[..])[Slot(old(nextSeqNum), BufferSize) := Some(p)] &&
                actions == if old(nextSeqNum) < base + WindowSize
                           then [Send(p)] + (if old(nextSeqNum) == base then [StartTimer(TimerLength)] else [])
                           else []
      ensures old(base) <= old(nextSeqNum) ==> base <= nextSeqNum
    {
      actions := [];
      if Index(nextSeqNum) == Index(base - 1) {
        return;
      }
      StorePreserves(buffer[..], scheme, Start, accepted, base, nextSeqNum, message);
      buffer[Index(nextSeqNum)] := Some(MakePacket(nextSeqNum, message));
      if nextSeqNum < base + WindowSize {
        actions := actions + [Send(buffer[Index(nextSeqNum)].value)];
        if nextSeqNum == base {
          actions := actions + [StartTimer(TimerLength)];
        }
      }
      accepted := accepted + [message];
      nextSeqNum := nextSeqNum + 1;
    }

    /**
     * `input(packet)` as written: an intact ACK beyond base stops the timer,
     * slides base to ack + 1 and restarts the timer unless nothing is in
     * flight. The slide's test `seqnum == base` never holds, so no buffered
     * packet is sent as it enters the window.
     */
    method Input(packet: PacketValue) returns (actions: seq<Action>)
      requires Valid()
      modifies this
      ensures buffer == old(buffer) && buffer[..] == old(buffer[..])
      ensures Valid() && nextSeqNum == old(nextSeqNum) && accepted == old(accepted)
      ensures Corrupt(scheme, packet) || packet.acknum + 1 <= old(base) ==> base == old(base) && actions == []
      ensures !Corrupt(scheme, packet) && old(base) < packet.acknum + 1 ==>
                base == packet.acknum + 1 &&
                actions == [StopTimer] + (if base != nextSeqNum then [StartTimer(TimerLength)] else [])
      ensures old(base) <= nextSeqNum && packet.acknum < nextSeqNum ==> base <= nextSeqNum
    {
      actions := [];
      if Checksums.Corrupt(scheme, packet) {
        return;
      }
      var newBase := packet.acknum + 1;
      if base < newBase {
        ghost var first, buf := base, buffer[..];
        var sent := Slide(newBase, 0);
        SlideSendsNothing(buf, scheme, Start, accepted, first, nextSeqNum, first, base);
        AdvancePreserves(buf, scheme, Start, accepted, first, base, nextSeqNum);
        actions := [StopTimer] + sent;
        if base != nextSeqNum {
          actions := actions + [StartTimer(TimerLength)];
        }
      }
    }

    /**
     * The window slide inside `input`: base steps up to newBase one number
     * at a time, and at each step b the packet in slot(b + 8) is sent if its
     * sequence number is b + lag. As written the test is `seqnum == base`
     * (lag 0); the comment beside it describes lag 8.
     */
    method Slide(newBase: int, lag: int) returns (sent: seq<Action>)
      requires buffer.Length == BufferSize && base <= newBase
      modifies this
      ensures base == newBase
      ensures buffer == old(buffer) && buffer[..] == old(buffer[..]) && nextSeqNum == old(nextSeqNum) && accepted == old(accepted)
      ensures sent == SlideSends(old(buffer[..]), old(base), newBase, lag)
    {
      sent := [];
      ghost var first, buf := base, buffer[..];
      while base < newBase
        invariant first <= base <= newBase
        invariant buffer == old(buffer) && buffer[..] == buf && nextSeqNum == old(nextSeqNum) && accepted == old(accepted)
        invariant sent == SlideSends(buf, first, base, lag)
      {
        var curr := buffer[Index(base + WindowSize)];
        ghost var step := if curr.Some? && curr.value.seqnum == base + lag then [Send(curr.value)] else [];
        assert SlideSends(buf, first, base + 1, lag) == sent + step;
        if curr.Some? && curr.value.seqnum == base + lag {
          sent := sent + [Send(curr.value)];
        }
        base := base + 1;
      }
    }

    /**
     * `input(packet)` with the slide test the comment beside it describes,
     * `seqnum == base + WINDOW_SIZE`: each buffered packet that enters the
     * window is sent as it does, in order.
     */
    method InputIntended(packet: PacketValue) returns (actions: seq<Action>)
      requires Valid()
      modifies this
      ensures buffer == old(buffer) && buffer[..] == old(buffer[..])
      ensures Valid() && nextSeqNum == old(nextSeqNum) && accepted == old(accepted)
      ensures Corrupt(scheme, packet) || packet.acknum + 1 <= old(base) ==> base == old(base) && actions == []
      ensures !Corrupt(scheme, packet) && old(base) < packet.acknum + 1 ==>
                base == packet.acknum + 1 &&
                actions == [StopTimer] +
                           Resends(scheme, Start, accepted, old(base) + WindowSize, Min(base + WindowSize, nextSeqNum)) +
                           (if base != nextSeqNum then [StartTimer(TimerLength)] else [])
      ensures old(base) <= nextSeqNum && packet.acknum < nextSeqNum ==> base <= nextSeqNum
    {
      actions := [];
      if Checksums.Corrupt(scheme, packet) {
        return;
      }
      var newBase := packet.acknum + 1;
      if base < newBase {
        var sent := SlideIntended(newBase);
        actions := [StopTimer] + sent;
        if base != nextSeqNum {
          actions := actions + [StartTimer(TimerLength)];
        }
      }
    }

    /** The slide of `InputIntended`: it sends the packets entering the window, in order, and keeps the buffer invariant. */
    method SlideIntended(newBase: int) returns (sent: seq<Action>)
      requires Valid() && base < newBase
      modifies this
      ensures buffer == old(buffer) && buffer[..] == old(buffer[..])
      ensures Valid() && base == newBase && nextSeqNum == old(nextSeqNum) && accepted == old(accepted)
      ensures sent == Resends(scheme, Start, accepted, old(base) + WindowSize, Min(newBase + WindowSize, nextSeqNum))
    {
      ghost var first, buf := base, buffer[..];
      sent := Slide(newBase, WindowSize);
      SlideSendsEntrants(buf, scheme, Start, accepted, first, nextSeqNum, base);
      AdvancePreserves(buf, scheme, Start, accepted, first, base, nextSeqNum);
    }

    /** `timerInterrupt()`: restarts the timer and resends the window [base, min(nextSeqNum, base + 8)) in order. */
    method TimerInterrupt() returns (actions: seq<Action>)
      requires Valid()
      ensures actions == [StartTimer(TimerLength)] + Resends(scheme, Start, accepted, base, Min(nextSeqNum, base + WindowSize))
    {
      actions := [StartTimer(TimerLength)];
      ghost var buf := buffer[..];
      var i := base;
      while i < nextSeqNum && i < base + WindowSize
        invariant base <= i && (i == base || i <= Min(nextSeqNum, base + WindowSize))
        invariant actions == [StartTimer(TimerLength)] + Resends(scheme, Start, accepted, base, i)
      {
        var p := buffer[Index(i)];
        assert p == buf[Slot(i, |buf|)] == Some(PacketFor(scheme, Start, accepted, i));
        ghost var prev := Resends(scheme, Start, accepted, base, i);
        assert Resends(scheme, Start, accepted, base, i + 1) == prev + [Send(p.value)];
        assert actions + [Send(p.value)] == [StartTimer(TimerLength)] + (prev + [Send(p.value)]);
        actions := actions + [Send(p.value)];
        i := i + 1;
      }
      if i != Min(nextSeqNum, base + WindowSize) {
        assert Resends(scheme, Start, accepted, base, i) == [] == Resends(scheme, Start, accepted, base, Min(nextSeqNum, base + WindowSize));
      }
    }
  }
}
