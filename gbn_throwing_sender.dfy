/**
 * GoBackN/src/main/java/transport/Sender.java: the Go-Back-N sender that
 * starts at sequence number 0, has a 50-slot buffer and throws
 * "buffer overflow" when an application message finds it full. It uses
 * the complement-of-sum checksum.
 */
module GoBackNSender {
  import opened Wrappers
  import opened JavaInt
  import opened Packets
  import opened Hosts
  import opened Checksums
  import opened GoBackN

  const TimerLength: real := 100.0
  const BufferSize: int := 50
  const Start: int := 0
  const Checksum: Scheme := ComplementOfSum

  /** The `RuntimeException("buffer overflow")` that `output` throws. */
  datatype Overflow = BufferOverflow

  class Sender {
    /** The oldest unacknowledged sequence number. */
    var base: int
    var nextSeqNum: int
    var buffer: array<Option<PacketValue>>
    /** The application messages accepted so far; message k travels with sequence number k. */
    ghost var accepted: seq<string>

    ghost predicate Valid()
      reads this, buffer
    {
      buffer.Length == BufferSize && nextSeqNum <= base + BufferSize - 1 &&
      Buffered(buffer[..], Checksum, Start, accepted, base, nextSeqNum)
    }

    /** `Sender(entity)` followed by `init()`: base and next sequence number 0, all slots empty. */
    constructor ()
      ensures Valid() && fresh(buffer)
      ensures base == Start && nextSeqNum == Start && accepted == []
      ensures forall i :: 0 <= i < buffer.Length ==> buffer[i] == None
    {
      base, nextSeqNum := Start, Start;
      buffer := new Option<PacketValue>[BufferSize](_ => None);
      accepted := [];
    }

    /** `index(seq)`: the slot of a sequence number, negative ones included. */
    function Index(s: int): (r: int)
      reads this
      requires buffer.Length > 0
      ensures 0 <= r < buffer.Length && r == Slot(s, buffer.Length)
    {
      PositiveModulo(s, buffer.Length)
    }

    /** `makePacket(seq, payload)`: a data packet stamped with its checksum. */
    function MakePacket(s: int, payload: string): (p: PacketValue)
      ensures p.seqnum == s && p.acknum == 0 && p.payload == payload
      ensures !Corrupt(Checksum, p)
    {
      Checksums.MakePacket(Checksum, s, payload)
    }

    /**
     * `output(message)`: a full buffer throws and changes nothing; otherwise
     * the message is stored, sent if it falls inside the window, and the
     * timer is started if it is the first unacknowledged packet.
     */
    method Output(message: string) returns (result: Result<seq<Action>, Overflow>)
      requires Valid()
      modifies this, buffer
      ensures Valid() && buffer == old(buffer) && base == old(base)
      ensures result.Failure? <==> Overflowing(old(base), old(nextSeqNum), BufferSize)
      ensures result.Failure? ==>
                nextSeqNum == old(nextSeqNum) && accepted == old(accepted) && buffer[..] == old(buffer[..])
      ensures result.Success? ==>
                var p := MakePacket(old(nextSeqNum), message);
                nextSeqNum == old(nextSeqNum) + 1 && accepted == old(accepted) + [message] &&
                buffer[..] == old(buffer[..])[Slot(old(nextSeqNum), BufferSize) := Some(p)] &&
                result.value == if old(nextSeqNum) < base + WindowSize
                                then [Send(p)] + (if old(nextSeqNum) == base then [StartTimer(TimerLength)] else [])
                                else []
      ensures old(base) <= old(nextSeqNum) ==> base <= nextSeqNum
    {
      if Index(nextSeqNum) == Index(base - 1) {
        return Failure(BufferOverflow);
      }
      StorePreserves(buffer[..], Checksum, Start, accepted, base, nextSeqNum, message);
      buffer[Index(nextSeqNum)] := Some(MakePacket(nextSeqNum, message));
      var actions := [];
      if nextSeqNum < base + WindowSize {
        actions := actions + [Send(buffer[Index(nextSeqNum)].value)];
        if nextSeqNum == base {
          actions := actions + [StartTimer(TimerLength)];
        }
      }
      accepted := accepted + [message];
      nextSeqNum := nextSeqNum + 1;
      return Success(actions);
    }

    /**
     * `input(packet)`: an intact ACK slides base up to ack + 1 and then the
     * timer is stopped if nothing is left in flight; a corrupt one is ignored.
     */
    method Input(packet: PacketValue) returns (actions: seq<Action>)
      requires Valid()
      modifies this
      ensures buffer == old(buffer) && buffer[..] == old(buffer[..])
      ensures Valid() && nextSeqNum == old(nextSeqNum) && accepted == old(accepted)
      ensures Corrupt(Checksum, packet) ==> base == old(base) && actions == []
      ensures !Corrupt(Checksum, packet) ==>
                base == Max(old(base), packet.acknum + 1) &&
                actions == Resends(Checksum, Start, accepted, Max(old(base) + WindowSize, packet.acknum + 2),
                                   Min(base + WindowSize, nextSeqNum)) +
                           (if base == nextSeqNum then [StopTimer] else [])
      ensures old(base) <= nextSeqNum && packet.acknum < nextSeqNum ==> base <= nextSeqNum
    {
      actions := [];
      if Checksums.Corrupt(Checksum, packet) {
        return;
      }
      var newBase := packet.acknum + 1;
      actions := Advance(newBase);
      if base == nextSeqNum {
        actions := actions + [StopTimer];
      }
    }

    /** The slide of `input` to newBase: it sends the entering packets above newBase, in order, and keeps the buffer invariant. */
    method Advance(newBase: int) returns (sent: seq<Action>)
      requires Valid()
      modifies this
      ensures buffer == old(buffer) && buffer[..] == old(buffer[..])
      ensures Valid() && base == Max(old(base), newBase) && nextSeqNum == old(nextSeqNum) && accepted == old(accepted)
      ensures sent == Resends(Checksum, Start, accepted, Max(old(base) + WindowSize, newBase + 1), Min(base + WindowSize, nextSeqNum))
    {
      ghost var first, buf := base, buffer[..];
      SlideAboveOutcome(buf, Checksum, Start, accepted, first, nextSeqNum, newBase, TimerLength);
      sent := Slide(newBase);
    }

    /**
     * The window slide inside `input`: base steps up to newBase one number
     * at a time, and at each step b the packet in slot(b + 8) is sent if its
     * sequence number is above newBase (`GoBackN.SlideSendsAboveEntrants`
     * says which packets those are).
     */
    method Slide(newBase: int) returns (actions: seq<Action>)
      requires buffer.Length == BufferSize
      modifies this
      ensures base == Max(old(base), newBase)
      ensures buffer == old(buffer) && buffer[..] == old(buffer[..]) && nextSeqNum == old(nextSeqNum) && accepted == old(accepted)
      ensures actions == SlideSendsAbove(old(buffer[..]), old(base), base, newBase, TimerLength)
    {
      actions := [];
      ghost var first, buf := base, buffer[..];
      while base < newBase
        invariant first <= base <= Max(first, newBase)
        invariant buffer == old(buffer) && buffer[..] == buf && nextSeqNum == old(nextSeqNum) && accepted == old(accepted)
        invariant actions == SlideSendsAbove(buf, first, base, newBase, TimerLength)
      {
        var curr := buffer[Index(base + WindowSize)];
        assert curr == buf[Slot(base + WindowSize, |buf|)];
        ghost var prev, step := actions, SlideStepAbove(buf, base, newBase, TimerLength);
        assert SlideSendsAbove(buf, first, base + 1, newBase, TimerLength) == prev + step;
        if curr.Some? && curr.value.seqnum > newBase {
          actions := actions + [Send(curr.value)];
          if curr.value.seqnum == newBase {
            actions := actions + [StartTimer(TimerLength)];
          }
          assert step == [Send(curr.value)];
        } else {
          assert step == [];
        }
        assert actions == prev + step;
        base := base + 1;
      }
    }

    /** `timerInterrupt()`: restarts the timer and resends the window [base, min(nextSeqNum, base + 8)) in order. */
    method TimerInterrupt() returns (actions: seq<Action>)
      requires Valid()
      ensures actions == [StartTimer(TimerLength)] + Resends(Checksum, Start, accepted, base, Min(nextSeqNum, base + WindowSize))
    {
      actions := [StartTimer(TimerLength)];
      ghost var buf := buffer[..];
      var i := base;
      while i < nextSeqNum && i < base + WindowSize
        invariant base <= i && (i == base || i <= Min(nextSeqNum, base + WindowSize))
        invariant actions == [StartTimer(TimerLength)] + Resends(Checksum, Start, accepted, base, i)
      {
        var p := buffer[Index(i)];
        assert p == buf[Slot(i, |buf|)] == Some(PacketFor(Checksum, Start, accepted, i));
        ghost var prev := Resends(Checksum, Start, accepted, base, i);
        assert Resends(Checksum, Start, accepted, base, i + 1) == prev + [Send(p.value)];
        assert actions + [Send(p.value)] == [StartTimer(TimerLength)] + (prev + [Send(p.value)]);
        actions := actions + [Send(p.value)];
        i := i + 1;
      }
      if i != Min(nextSeqNum, base + WindowSize) {
        assert Resends(Checksum, Start, accepted, base, i) == [] == Resends(Checksum, Start, accepted, base, Min(nextSeqNum, base + WindowSize));
      }
    }
  }
}
