/**
 * What the two Go-Back-N senders share: a window of eight packets in
 * flight, a ring buffer indexed by `index(seq)`, the positive modulo of the
 * sequence number by the buffer length, and retransmission of the window.
 * The accepted application messages are a ghost history; the packet with
 * sequence number s carries message s - start.
 */
module GoBackN {
  import opened Wrappers
  import opened JavaInt
  import opened Packets
  import opened Hosts
  import opened Checksums

  /** `WINDOW_SIZE`: packets that may be unacknowledged at once. */
  const WindowSize: int := 8

  function Max(a: int, b: int): int { if a < b then b else a }
  function Min(a: int, b: int): int { if a < b then a else b }

  /** The buffer slot of a sequence number; `index(seq)` computes it (see `JavaInt.PositiveModulo`). */
  function Slot(s: int, n: int): (r: int)
    requires n > 0
    ensures 0 <= r < n
  {
    s % n
  }

  /** Sequence numbers less than n apart never share a slot. */
  lemma SlotsDistinct(x: int, y: int, n: int)
    requires n > 0 && 0 < y - x < n
    ensures Slot(x, n) != Slot(y, n)
  {
    var d := y / n - x / n;
    assert y - x == n * d + (Slot(y, n) - Slot(x, n));
    if d >= 1 {
      ProductAtLeast(n, d);
    } else if d <= -1 {
      ProductAtLeast(n, -d);
    }
  }

  /** Sequence numbers exactly n apart share a slot. */
  lemma SlotPeriodic(x: int, n: int)
    requires n > 0
    ensures Slot(x + n, n) == Slot(x, n)
  {
    ModUnique(x + n, n, x / n + 1, x % n);
  }

  /** The packet that carries accepted message s - start. */
  function PacketFor(scheme: Scheme, start: int, accepted: seq<string>, s: int): (p: PacketValue)
    requires start <= s < start + |accepted|
    ensures p.seqnum == s && p.acknum == 0 && p.payload == accepted[s - start]
    ensures !Corrupt(scheme, p)
  {
    MakePacket(scheme, s, accepted[s - start])
  }

  /** Sending the packets with sequence numbers lo, lo + 1, ..., hi - 1, in that order. */
  function Resends(scheme: Scheme, start: int, accepted: seq<string>, lo: int, hi: int): (r: seq<Action>)
    requires start <= lo && (lo < hi ==> hi <= start + |accepted|)
    ensures |r| == if hi <= lo then 0 else hi - lo
    decreases hi - lo
  {
    if hi <= lo then [] else Resends(scheme, start, accepted, lo, hi - 1) + [Send(PacketFor(scheme, start, accepted, hi - 1))]
  }

  /** The i-th action of `Resends` sends packet lo + i, carrying its accepted message, intact. */
  lemma {:induction false} ResendsInOrder(scheme: Scheme, start: int, accepted: seq<string>, lo: int, hi: int)
    requires start <= lo && (lo < hi ==> hi <= start + |accepted|)
    ensures forall i :: 0 <= i < |Resends(scheme, start, accepted, lo, hi)| ==>
              Resends(scheme, start, accepted, lo, hi)[i] == Send(PacketFor(scheme, start, accepted, lo + i))
    decreases hi - lo
  {
    if lo < hi {
      ResendsInOrder(scheme, start, accepted, lo, hi - 1);
      var r, prefix := Resends(scheme, start, accepted, lo, hi), Resends(scheme, start, accepted, lo, hi - 1);
      assert r == prefix + [Send(PacketFor(scheme, start, accepted, hi - 1))];
      forall i | 0 <= i < |r|
        ensures r[i] == Send(PacketFor(scheme, start, accepted, lo + i))
      {
        if i < |prefix| {
          assert r[i] == prefix[i];
        } else {
          assert lo + i == hi - 1;
        }
      }
    }
  }

  /**
   * The buffer invariant: a stored packet sits in the slot of its sequence
   * number, which is below next, and every sequence number of [base, next)
   * is stored with its message.
   */
  ghost predicate Buffered(buf: seq<Option<PacketValue>>, scheme: Scheme, start: int, accepted: seq<string>, base: int, next: int)
  {
    |buf| > WindowSize && start <= base && next == start + |accepted|
    && (forall i :: 0 <= i < |buf| && buf[i].Some? ==> Slot(buf[i].value.seqnum, |buf|) == i && buf[i].value.seqnum < next)
    && (forall s :: base <= s < next ==> buf[Slot(s, |buf|)] == Some(PacketFor(scheme, start, accepted, s)))
  }

  /** Acknowledgements only shrink the range that must be stored. */
  lemma AdvancePreserves(buf: seq<Option<PacketValue>>, scheme: Scheme, start: int, accepted: seq<string>, base: int, newBase: int, next: int)
    requires Buffered(buf, scheme, start, accepted, base, next)
    requires base <= newBase
    ensures Buffered(buf, scheme, start, accepted, newBase, next)
  {
  }

  /** The overflow test of `output`: the next slot is the one just below the window. */
  predicate Overflowing(base: int, next: int, n: int)
    requires n > 0
  {
    Slot(next, n) == Slot(base - 1, n)
  }

  /** Within the window bound, the buffer overflows exactly when n - 1 packets are outstanding. */
  lemma OverflowingIff(base: int, next: int, n: int)
    requires n > 0 && base <= next <= base + n - 1
    ensures Overflowing(base, next, n) <==> next == base + n - 1
  {
    if next == base + n - 1 {
      SlotPeriodic(base - 1, n);
    } else {
      SlotsDistinct(base - 1, next, n);
    }
  }

  /** Storing message m at slot(next) keeps the invariant when the buffer does not overflow. */
  lemma StorePreserves(buf: seq<Option<PacketValue>>, scheme: Scheme, start: int, accepted: seq<string>, base: int, next: int, m: string)
    requires Buffered(buf, scheme, start, accepted, base, next)
    requires next <= base + |buf| - 1 && !Overflowing(base, next, |buf|)
    ensures Buffered(buf[Slot(next, |buf|) := Some(MakePacket(scheme, next, m))], scheme, start, accepted + [m], base, next + 1)
    ensures next + 1 <= base + |buf| - 1
  {
    var n := |buf|;
    var acc := accepted + [m];
    var buf' := buf[Slot(next, n) := Some(MakePacket(scheme, next, m))];
    if base <= next {
      OverflowingIff(base, next, n);
    }
    assert PacketFor(scheme, start, acc, next) == MakePacket(scheme, next, m);
    forall s | base <= s < next + 1
      ensures buf'[Slot(s, n)] == Some(PacketFor(scheme, start, acc, s))
    {
      if s < next {
        SlotsDistinct(s, next, n);
        assert acc[s - start] == accepted[s - start];
      }
    }
  }

  /**
   * The packets the window slide of `input` sends as base steps from `first`
   * to `stop`: at each step b, the packet in slot(b + 8) if it has sequence
   * number b + lag.
   */
  function SlideSends(buf: seq<Option<PacketValue>>, first: int, stop: int, lag: int): seq<Action>
    requires |buf| > 0
  {
    Concat(b => SlideStep(buf, b, lag), first, stop)
  }

  /** The actions of steps first, first + 1, ..., stop - 1, in that order. */
  function Concat(step: int -> seq<Action>, first: int, stop: int): seq<Action>
    decreases stop - first
  {
    if stop <= first then [] else Concat(step, first, stop - 1) + step(stop - 1)
  }

  function SlideStep(buf: seq<Option<PacketValue>>, b: int, lag: int): seq<Action>
    requires |buf| > 0
  {
    var curr := buf[Slot(b + WindowSize, |buf|)];
    if curr.Some? && curr.value.seqnum == b + lag then [Send(curr.value)] else []
  }

  /** With the test `seqnum == base` the slide never sends: slot(b + 8) only holds numbers congruent to b + 8. */
  lemma {:induction false} SlideSendsNothing(buf: seq<Option<PacketValue>>, scheme: Scheme, start: int, accepted: seq<string>, base: int, next: int, first: int, stop: int)
    requires Buffered(buf, scheme, start, accepted, base, next)
    ensures SlideSends(buf, first, stop, 0) == []
    decreases stop - first
  {
    if first < stop {
      SlideSendsNothing(buf, scheme, start, accepted, base, next, first, stop - 1);
      SlotsDistinct(stop - 1, stop - 1 + WindowSize, |buf|);
    }
  }

  /** What step b of the slide should send: the packet numbered h = b + 8, if lo <= h and it is stored. */
  function Entrant(scheme: Scheme, start: int, accepted: seq<string>, lo: int, next: int, h: int): seq<Action>
    requires start <= lo && next == start + |accepted|
  {
    if lo <= h < next then [Send(PacketFor(scheme, start, accepted, h))] else []
  }

  /** With the test `seqnum == base + 8` step b sends the packet numbered b + 8 when it is stored. */
  lemma SlideStepEntrant(buf: seq<Option<PacketValue>>, scheme: Scheme, start: int, accepted: seq<string>, base: int, next: int, b: int)
    requires Buffered(buf, scheme, start, accepted, base, next)
    requires base <= b
    ensures SlideStep(buf, b, WindowSize) == Entrant(scheme, start, accepted, base + WindowSize, next, b + WindowSize)
  {
    var curr := buf[Slot(b + WindowSize, |buf|)];
    if b + WindowSize >= next {
      assert !(curr.Some? && curr.value.seqnum == b + WindowSize);
    }
  }

  /** With the test `seqnum == base + 8` the slide sends each packet that enters the window, in order. */
  lemma SlideSendsEntrants(buf: seq<Option<PacketValue>>, scheme: Scheme, start: int, accepted: seq<string>, base: int, next: int, stop: int)
    requires Buffered(buf, scheme, start, accepted, base, next)
    requires base <= stop
    ensures SlideSends(buf, base, stop, WindowSize) ==
            Resends(scheme, start, accepted, base + WindowSize, Min(stop + WindowSize, next))
  {
    forall b | base <= b < stop
      ensures SlideStep(buf, b, WindowSize) == Entrant(scheme, start, accepted, base + WindowSize, next, b + WindowSize)
    {
      SlideStepEntrant(buf, scheme, start, accepted, base, next, b);
    }
    ConcatEntrants(b => SlideStep(buf, b, WindowSize), scheme, start, accepted, base, stop, base + WindowSize, next);
  }

  /** Steps that each send what enters the window at or above lo send those packets in order. */
  lemma ConcatEntrants(step: int -> seq<Action>, scheme: Scheme, start: int, accepted: seq<string>, first: int, stop: int, lo: int, next: int)
    requires start <= lo && first + WindowSize <= lo && first <= stop && next == start + |accepted|
    requires forall b :: first <= b < stop ==> step(b) == Entrant(scheme, start, accepted, lo, next, b + WindowSize)
    ensures Concat(step, first, stop) == Resends(scheme, start, accepted, lo, Min(stop + WindowSize, next))
  {
    var stored := Stored(scheme, start, accepted);
    forall b | first <= b < stop
      ensures step(b) == if lo <= b + WindowSize < next then stored(b + WindowSize) else []
    {
    }
    ConcatShift(step, stored, first, stop, lo, next);
    ResendsAsConcat(scheme, start, accepted, lo, Min(stop + WindowSize, next));
  }

  /** Sending packet h, for each h that has been accepted. */
  function Stored(scheme: Scheme, start: int, accepted: seq<string>): int -> seq<Action>
  {
    h => if start <= h < start + |accepted| then [Send(PacketFor(scheme, start, accepted, h))] else []
  }

  /** `Resends` is the concatenation of the sends of the packets it covers. */
  lemma {:induction false} ResendsAsConcat(scheme: Scheme, start: int, accepted: seq<string>, lo: int, hi: int)
    requires start <= lo && (lo < hi ==> hi <= start + |accepted|)
    ensures Resends(scheme, start, accepted, lo, hi) == Concat(Stored(scheme, start, accepted), lo, hi)
    decreases hi - lo
  {
    if lo < hi {
      ResendsAsConcat(scheme, start, accepted, lo, hi - 1);
    }
  }

  /**
   * Steps first .. stop - 1 where step b does what g does at b + 8, for
   * b + 8 in [lo, next), and nothing otherwise, do what g does over
   * [lo, min(stop + 8, next)).
   */
  lemma {:induction false} ConcatShift(step: int -> seq<Action>, g: int -> seq<Action>, first: int, stop: int, lo: int, next: int)
    requires first + WindowSize <= lo && first <= stop
    requires forall b :: first <= b < stop ==> step(b) == if lo <= b + WindowSize < next then g(b + WindowSize) else []
    ensures Concat(step, first, stop) == Concat(g, lo, Min(stop + WindowSize, next))
    decreases stop - first
  {
    if first < stop {
      ConcatShift(step, g, first, stop - 1, lo, next);
      var h := stop - 1 + WindowSize;
      if lo <= h < next {
        assert Min(stop + WindowSize, next) == h + 1 && Min(stop - 1 + WindowSize, next) == h;
      } else if next <= h {
        assert Min(stop + WindowSize, next) == next == Min(stop - 1 + WindowSize, next);
      } else {
        assert Min(stop + WindowSize, next) <= lo && Min(stop - 1 + WindowSize, next) <= lo;
      }
    }
  }

  /**
   * The slide of the sender that throws on overflow: at each step b the packet
   * in slot(b + 8) is sent if its sequence number exceeds newBase, and the
   * timer is started if it equals newBase.
   */
  function SlideSendsAbove(buf: seq<Option<PacketValue>>, first: int, stop: int, newBase: int, timerLength: real): seq<Action>
    requires |buf| > 0
  {
    Concat(b => SlideStepAbove(buf, b, newBase, timerLength), first, stop)
  }

  function SlideStepAbove(buf: seq<Option<PacketValue>>, b: int, newBase: int, timerLength: real): seq<Action>
    requires |buf| > 0
  {
    var curr := buf[Slot(b + WindowSize, |buf|)];
    if curr.Some? && curr.value.seqnum > newBase then
      [Send(curr.value)] + (if curr.value.seqnum == newBase then [StartTimer(timerLength)] else [])
    else []
  }

  /** One step b of that slide sends the packet numbered b + 8 exactly when it is stored and above newBase, and nothing else. */
  lemma SlideAboveStep(buf: seq<Option<PacketValue>>, scheme: Scheme, start: int, accepted: seq<string>, base: int, next: int, b: int, newBase: int, timerLength: real)
    requires Buffered(buf, scheme, start, accepted, base, next)
    requires next <= base + |buf| - 1
    requires base <= b < newBase
    ensures SlideStepAbove(buf, b, newBase, timerLength) ==
            Entrant(scheme, start, accepted, Max(base + WindowSize, newBase + 1), next, b + WindowSize)
  {
    var n := |buf|;
    var curr := buf[Slot(b + WindowSize, n)];
    if curr.Some? && curr.value.seqnum != b + WindowSize {
      var p := curr.value.seqnum;
      if p > b + WindowSize - n {
        if p < b + WindowSize {
          SlotsDistinct(p, b + WindowSize, n);
        } else {
          SlotsDistinct(b + WindowSize, p, n);
        }
      }
    }
  }

  /**
   * That slide sends exactly the entering packets above newBase, in order:
   * never the one numbered newBase, and it never starts the timer.
   */
  lemma SlideSendsAboveEntrants(buf: seq<Option<PacketValue>>, scheme: Scheme, start: int, accepted: seq<string>, base: int, next: int, stop: int, newBase: int, timerLength: real)
    requires Buffered(buf, scheme, start, accepted, base, next)
    requires next <= base + |buf| - 1
    requires base <= stop <= newBase
    ensures SlideSendsAbove(buf, base, stop, newBase, timerLength) ==
            Resends(scheme, start, accepted, Max(base + WindowSize, newBase + 1), Min(stop + WindowSize, next))
  {
    forall b | base <= b < stop
      ensures SlideStepAbove(buf, b, newBase, timerLength) ==
              Entrant(scheme, start, accepted, Max(base + WindowSize, newBase + 1), next, b + WindowSize)
    {
      SlideAboveStep(buf, scheme, start, accepted, base, next, b, newBase, timerLength);
    }
    ConcatEntrants(b => SlideStepAbove(buf, b, newBase, timerLength), scheme, start, accepted, base, stop, Max(base + WindowSize, newBase + 1), next);
  }

  /** The whole slide to newBase: what it sends, and that the buffer invariant holds at the new base. */
  lemma SlideAboveOutcome(buf: seq<Option<PacketValue>>, scheme: Scheme, start: int, accepted: seq<string>, base: int, next: int, newBase: int, timerLength: real)
    requires Buffered(buf, scheme, start, accepted, base, next)
    requires next <= base + |buf| - 1
    ensures Buffered(buf, scheme, start, accepted, Max(base, newBase), next)
    ensures SlideSendsAbove(buf, base, Max(base, newBase), newBase, timerLength) ==
            Resends(scheme, start, accepted, Max(base + WindowSize, newBase + 1), Min(Max(base, newBase) + WindowSize, next))
  {
    if base < newBase {
      SlideSendsAboveEntrants(buf, scheme, start, accepted, base, next, newBase, newBase, timerLength);
      AdvancePreserves(buf, scheme, start, accepted, base, newBase, next);
    } else {
      assert Resends(scheme, start, accepted, Max(base + WindowSize, newBase + 1), Min(base + WindowSize, next)) == [];
    }
  }
}
