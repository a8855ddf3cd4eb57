/**
 * NetworkHost.java: the services a protocol host gets from the simulated
 * network: one timer per host, an unreliable channel to the other host, and
 * delivery of data to the application above.
 *
 * The protocol handlers of this model do not call these services directly:
 * each handler returns the `Action`s it performs, in order, and the
 * simulator hands them to `NetworkHost.Perform`. No handler reads anything
 * back from a service call, so the two are equivalent. The random draws of
 * `udtSend` are a `ChannelDraw` supplied by the caller.
 */
module Hosts {
  import opened Wrappers
  import opened JavaInt
  import opened Packets
  import opened Events
  import opened EventLists
  import Checksums

  /** The largest message the application hands down. */
  const MaxDataSize: nat := 20

  /** A service call made by a protocol handler. */
  datatype Action = Send(packet: PacketValue) | StartTimer(increment: real) | StopTimer | Deliver(data: string)

  /** The callbacks a host may implement. */
  datatype Callback = InitCallback | OutputCallback | InputCallback | TimerCallback

  /** The outcome of a callback that the host does not implement. */
  datatype Unsupported = Unsupported(callback: Callback, entity: int)

  type Delay = r: real | r >= 0.0

  /** What the corruption draw of `udtSend` decided; a replaced number is the absolute value of a random int. */
  datatype Corruption = Intact | PayloadGarbled | SeqnumReplaced(draw: Int32) | AcknumReplaced(draw: Int32)

  /** All the random draws of one `udtSend`: loss, corruption and the extra delay `|5g + 9|`. */
  datatype ChannelDraw = ChannelDraw(lost: bool, corruption: Corruption, jitter: Delay)

  /** The default `init`, `output`, `input` and `timerInterrupt`: always an `UnsupportedOperationException`. */
  function DefaultHandler(callback: Callback, entity: int): (r: Result<(), Unsupported>)
    ensures r.Failure? && r.error.callback == callback && r.error.entity == entity
  {
    Failure(Unsupported(callback, entity))
  }

  /** The other side of the network; nothing for an entity that is neither A nor B. */
  function Destination(entity: int): Option<int>
  {
    if entity == A then Some(B) else if entity == B then Some(A) else None
  }

  /**
   * The payload after the payload corruption: its first character becomes '=';
   * a payload shorter than two characters becomes "=" alone.
   */
  function Garbled(payload: string): (r: string)
    ensures |r| >= 1 && r[0] == '='
    ensures |payload| >= 2 ==> |r| == |payload| && r[1..] == payload[1..]
    ensures |payload| < 2 ==> r == "="
  {
    if |payload| < 2 then "=" else "=" + payload[1..]
  }

  /**
   * The packet as it travels after the corruption draw: the checksum is never
   * touched, at most one other field changes, and only the field the draw names.
   */
  function Corrupted(p: PacketValue, c: Corruption): (r: PacketValue)
    ensures r.checksum == p.checksum
    ensures c.Intact? ==> r == p
    ensures r.seqnum != p.seqnum ==> r == p.(seqnum := r.seqnum)
    ensures r.acknum != p.acknum ==> r == p.(acknum := r.acknum)
    ensures r.payload != p.payload ==> r == p.(payload := r.payload)
  {
    match c
    case Intact => p
    case PayloadGarbled => p.(payload := Garbled(p.payload))
    case SeqnumReplaced(d) => p.(seqnum := Abs(d))
    case AcknumReplaced(d) => p.(acknum := Abs(d))
  }

  /** When a packet sent now to dest arrives: one time unit plus the jitter after the last pending arrival there, or after now. */
  function ArrivalTime(s: seq<Event>, dest: int, now: real, jitter: Delay): (r: real)
    ensures LastPacketTime(s, dest) <= 0.0 ==> r == now + 1.0 + jitter
    ensures LastPacketTime(s, dest) > 0.0 ==> r >= LastPacketTime(s, dest) + 1.0
  {
    var last := LastPacketTime(s, dest);
    (if last <= 0.0 then now else last) + 1.0 + jitter
  }

  /**
   * The events `udtSend` appends: at most one, an arrival of a packet at the
   * other entity, and none for an invalid sender or a lost packet.
   */
  function Scheduled(s: seq<Event>, entity: int, now: real, p: PacketValue, draw: ChannelDraw): (r: seq<Event>)
    ensures |r| <= 1
    ensures r == [] <==> draw.lost || (entity != A && entity != B)
    ensures r != [] ==> r[0].kind == FromNetwork && r[0].packet.Some? && r[0].entity == (if entity == A then B else A)
  {
    match Destination(entity)
    case None => []
    case Some(dest) =>
      if draw.lost then []
      else [Event(ArrivalTime(s, dest, now, draw.jitter), FromNetwork, dest, Some(Corrupted(p, draw.corruption)))]
  }

  /** The list after `startTimer`: a pending timer is moved to the end unchanged, otherwise a new one is added. */
  function TimerStarted(s: seq<Event>, entity: int, now: real, increment: real): (r: seq<Event>)
    ensures |r| >= 1 && Matches(TimersOf(entity), r[|r| - 1])
    ensures FirstMatch(s, TimersOf(entity)).None? ==> r == s + [Event(now + increment, TimerInterrupt, entity, None)]
  {
    match FirstMatch(s, TimersOf(entity))
    case Some(k) => RemoveAt(s, k) + [s[k]]
    case None => s + [Event(now + increment, TimerInterrupt, entity, None)]
  }

  /** A `startTimer` with a timer pending only reorders the list: no event is added or lost. */
  lemma TimerStartedReorders(s: seq<Event>, entity: int, now: real, increment: real)
    requires FirstMatch(s, TimersOf(entity)).Some?
    ensures multiset(TimerStarted(s, entity, now, increment)) == multiset(s)
  {
    var k := FirstMatch(s, TimersOf(entity)).value;
    var front, back := s[..k], s[k + 1..];
    assert s == front + [s[k]] + back;
    assert RemoveAt(s, k) == front + back;
    calc {
      multiset(TimerStarted(s, entity, now, increment));
      multiset(front + back + [s[k]]);
      multiset(front) + multiset(back) + multiset{s[k]};
      multiset(front + [s[k]] + back);
    }
  }

  /** When the entity's (first) pending timer fires, if it has one. */
  function TimerExpiry(s: seq<Event>, entity: int): Option<real>
  {
    match FirstMatch(s, TimersOf(entity))
    case None => None
    case Some(k) => Some(s[k].time)
  }

  /** The list after the entity performs action a at time now. */
  function Performed(s: seq<Event>, entity: int, now: real, a: Action, draw: ChannelDraw): seq<Event>
  {
    match a
    case Send(p) => s + Scheduled(s, entity, now, p, draw)
    case StartTimer(increment) => TimerStarted(s, entity, now, increment)
    case StopTimer => WithoutTimer(s, entity)
    case Deliver(_) => s
  }

  /** The list after the host layer carries out the actions in order, the k-th draw going to the first. */
  function PerformedAll(s: seq<Event>, entity: int, now: real, actions: seq<Action>, channel: nat -> ChannelDraw, k: nat): seq<Event>
    decreases |actions|
  {
    if actions == [] then s
    else PerformedAll(Performed(s, entity, now, actions[0], channel(k)), entity, now, actions[1..], channel, k + 1)
  }

  /** The payload an action delivers: its data for a `Deliver`, nothing otherwise. */
  function Delivered(a: Action): seq<string>
  {
    if a.Deliver? then [a.data] else []
  }

  /** The payloads the actions deliver, in order. */
  function Deliveries(actions: seq<Action>): seq<string>
  {
    if actions == [] then []
    else Delivered(actions[0]) + Deliveries(actions[1..])
  }

  /** Carrying out actions i, i + 1, ... is carrying out action i, then the rest. */
  lemma PerformedAllStep(s: seq<Event>, entity: int, now: real, actions: seq<Action>, channel: nat -> ChannelDraw, k: nat, i: nat)
    requires i < |actions|
    ensures PerformedAll(s, entity, now, actions[i..], channel, k) ==
            PerformedAll(Performed(s, entity, now, actions[i], channel(k)), entity, now, actions[i + 1..], channel, k + 1)
  {
    assert actions[i..][1..] == actions[i + 1..];
  }

  /** What actions i, i + 1, ... deliver after d: action i's payload, then the rest's. */
  lemma DeliveriesStep(d: seq<string>, actions: seq<Action>, i: nat)
    requires i < |actions|
    ensures d + Deliveries(actions[i..]) == d + Delivered(actions[i]) + Deliveries(actions[i + 1..])
  {
    assert actions[i..][1..] == actions[i + 1..];
  }

  /** Pending arrivals at dest are in non-decreasing time order in the list. */
  ghost predicate ArrivalsOrdered(s: seq<Event>, dest: int)
  {
    forall i, j :: 0 <= i < j < |s| && Matches(ArrivalsAt(dest), s[i]) && Matches(ArrivalsAt(dest), s[j]) ==>
      s[i].time <= s[j].time
  }

  /** Starting a timer leaves exactly one pending; every other kind of event keeps its count. */
  lemma TimerStartedKeepsOne(s: seq<Event>, entity: int, now: real, increment: real)
    requires Count(s, TimersOf(entity)) <= 1
    ensures Count(TimerStarted(s, entity, now, increment), TimersOf(entity)) == 1
    ensures forall f :: f != TimersOf(entity) ==> Count(TimerStarted(s, entity, now, increment), f) == Count(s, f)
  {
    var r := TimerStarted(s, entity, now, increment);
    CountZeroIff(s, TimersOf(entity));
    match FirstMatch(s, TimersOf(entity))
    case Some(k) =>
      forall f
        ensures Count(r, f) == Count(s, f)
      {
        CountRemoveAt(s, k, f);
        CountAppend(RemoveAt(s, k), s[k], f);
      }
    case None =>
      forall f
        ensures Count(r, f) == Count(s, f) + (if f == TimersOf(entity) then 1 else 0)
      {
        CountAppend(s, Event(now + increment, TimerInterrupt, entity, None), f);
      }
  }

  /** A second `startTimer` does not restart the timer: it still fires when it did; a first one fires at now + increment. */
  lemma TimerStartedExpiry(s: seq<Event>, entity: int, now: real, increment: real)
    requires Count(s, TimersOf(entity)) <= 1
    ensures TimerExpiry(TimerStarted(s, entity, now, increment), entity) ==
            Some(match TimerExpiry(s, entity) case Some(t) => t case None => now + increment)
  {
    match FirstMatch(s, TimersOf(entity))
    case Some(k) =>
      var rest := RemoveAt(s, k);
      CountRemoveAt(s, k, TimersOf(entity));
      assert Count(rest, TimersOf(entity)) == 0;
      CountZeroIff(rest, TimersOf(entity));
      FirstMatchAppend(rest, s[k], TimersOf(entity));
      assert TimerStarted(s, entity, now, increment) == rest + [s[k]];
      assert (rest + [s[k]])[|rest|] == s[k];
    case None =>
      var e := Event(now + increment, TimerInterrupt, entity, None);
      FirstMatchAppend(s, e, TimersOf(entity));
      assert TimerStarted(s, entity, now, increment) == s + [e];
      assert (s + [e])[|s|] == e;
  }

  /** Stopping the timer leaves none pending; every other kind of event keeps its count. */
  lemma TimerStoppedLeavesNone(s: seq<Event>, entity: int)
    requires Count(s, TimersOf(entity)) <= 1
    ensures Count(WithoutTimer(s, entity), TimersOf(entity)) == 0
    ensures TimerExpiry(WithoutTimer(s, entity), entity) == None
    ensures forall f :: f != TimersOf(entity) ==> Count(WithoutTimer(s, entity), f) == Count(s, f)
  {
    match FirstMatch(s, TimersOf(entity))
    case Some(k) =>
      forall f
        ensures Count(WithoutTimer(s, entity), f) == Count(s, f) - (if f == TimersOf(entity) then 1 else 0)
      {
        CountRemoveAt(s, k, f);
      }
      CountZeroIff(WithoutTimer(s, entity), TimersOf(entity));
    case None =>
      CountZeroIff(s, TimersOf(entity));
  }

  /** The garbled payload differs from the original exactly when its character sum does, modulo 2^32. */
  lemma GarbledDetected(payload: string)
    ensures (CharSum(Garbled(payload)) - CharSum(payload)) % Modulus != 0 <==> Garbled(payload) != payload
  {
    var g := Garbled(payload);
    CharSumFront(g);
    assert g[1..] == (if |payload| < 2 then [] else payload[1..]);
    if payload == [] {
      assert CharSum(g) - CharSum(payload) == 61;
    } else {
      CharSumFront(payload);
      if |payload| == 1 {
        assert payload[1..] == [];
      }
      var d := CharSum(g) - CharSum(payload);
      assert d == 61 - payload[0] as int;
      Int32Congruent(61, payload[0] as int);
      assert g == payload <==> payload[0] == '=';
    }
  }

  /**
   * The receiver can tell: a packet that left intact is found corrupt after
   * the channel exactly when the channel changed it (its numbers being Java ints).
   */
  lemma CorruptionDetectedIff(scheme: Checksums.Scheme, p: PacketValue, c: Corruption)
    requires !Checksums.Corrupt(scheme, p)
    requires MinValue <= p.seqnum <= MaxValue && MinValue <= p.acknum <= MaxValue
    ensures Checksums.Corrupt(scheme, Corrupted(p, c)) <==> Corrupted(p, c) != p
  {
    match c
    case Intact =>
    case PayloadGarbled =>
      Checksums.PayloadChangeDetected(scheme, p, Garbled(p.payload));
      GarbledDetected(p.payload);
    case SeqnumReplaced(d) =>
      Checksums.SeqnumChangeDetected(scheme, p, Abs(d));
      Int32Congruent(Abs(d), p.seqnum);
    case AcknumReplaced(d) =>
      Checksums.AcknumChangeDetected(scheme, p, Abs(d));
      Int32Congruent(Abs(d), p.acknum);
  }

  /**
   * No reordering: given that pending arrivals at dest are ordered and none
   * is in the past, a new arrival comes at least one unit after now and
   * strictly after every pending arrival at dest, and the order is kept.
   */
  lemma ArrivalAfterPending(s: seq<Event>, dest: int, now: real, jitter: Delay)
    requires now >= 0.0
    requires ArrivalsOrdered(s, dest)
    requires forall i :: 0 <= i < |s| ==> s[i].time >= now
    ensures ArrivalTime(s, dest, now, jitter) >= now + 1.0
    ensures forall i :: 0 <= i < |s| && Matches(ArrivalsAt(dest), s[i]) ==> s[i].time < ArrivalTime(s, dest, now, jitter)
  {
    match LastMatch(s, ArrivalsAt(dest))
    case None =>
    case Some(k) =>
      assert forall i :: 0 <= i < |s| && Matches(ArrivalsAt(dest), s[i]) ==> i <= k;
  }

  class NetworkHost {
    const entity: int
    /** The payloads handed to `deliverData`, oldest first. */
    var delivered: seq<string>

    constructor (entityName: int)
      ensures entity == entityName && delivered == []
    {
      entity := entityName;
      delivered := [];
    }

    /** `startTimer(increment)` at simulated time now. */
    method StartTimer(events: EventList, now: real, increment: real)
      modifies events
      ensures events.list == TimerStarted(old(events.list), entity, now, increment)
    {
      var t := events.RemoveTimer(entity);
      if t.Some? {
        events.Add(t.value);
      } else {
        var timer := Event(now + increment, TimerInterrupt, entity, None);
        events.Add(timer);
      }
    }

    /** `stopTimer()`: removes the pending timer; without one, nothing changes. */
    method StopTimer(events: EventList)
      modifies events
      ensures events.list == WithoutTimer(old(events.list), entity)
    {
      var timer := events.RemoveTimer(entity);
    }

    /** `udtSend(p)`: the channel works on a fresh copy of p, so the sender's packet is never changed. */
    method UdtSend(events: EventList, now: real, p: PacketValue, draw: ChannelDraw)
      modifies events
      ensures events.list == old(events.list) + Scheduled(old(events.list), entity, now, p, draw)
    {
      var packet := new Packet(p.seqnum, p.acknum, p.checksum, p.payload);
      var destination: int;
      if entity == A {
        destination := B;
      } else if entity == B {
        destination := A;
      } else {
        return;
      }
      if draw.lost {
        return;
      }
      match draw.corruption {
        case Intact =>
        case PayloadGarbled =>
          var payload := packet.payload;
          if |payload| < 2 {
            payload := "=";
          } else {
            payload := "=" + payload[1..];
          }
          packet.SetPayload(payload);
        case SeqnumReplaced(d) =>
          packet.SetSeqnum(Abs(d));
        case AcknumReplaced(d) =>
          packet.SetAcknum(Abs(d));
      }
      var arrivalTime := events.GetLastPacketTime(destination);
      if arrivalTime <= 0.0 {
        arrivalTime := now;
      }
      arrivalTime := arrivalTime + 1.0 + draw.jitter;
      var arrival := Event(arrivalTime, FromNetwork, destination, Some(packet.Value()));
      events.Add(arrival);
    }

    /** `deliverData(data)`: the payload goes to the application, here the end of the `delivered` trace. */
    method DeliverData(data: string)
      modifies this
      ensures delivered == old(delivered) + [data]
    {
      delivered := delivered + [data];
    }

    /** Carries out one action of a handler of this host; only a send uses the draw. */
    method Perform(events: EventList, now: real, a: Action, draw: ChannelDraw)
      modifies this, events
      ensures events.list == Performed(old(events.list), entity, now, a, draw)
      ensures delivered == old(delivered) + Delivered(a)
    {
      match a {
        case Send(p) => UdtSend(events, now, p, draw);
        case StartTimer(increment) => StartTimer(events, now, increment);
        case StopTimer => StopTimer(events);
        case Deliver(data) => DeliverData(data);
      }
    }

    /** Carries out a handler's actions in order, the k-th channel draw going to the first. */
    method PerformAll(events: EventList, now: real, actions: seq<Action>, channel: nat -> ChannelDraw, k: nat) returns (next: nat)
      modifies this, events
      ensures events.list == PerformedAll(old(events.list), entity, now, actions, channel, k)
      ensures next == k + |actions|
      ensures delivered == old(delivered) + Deliveries(actions)
    {
      ghost var goal := PerformedAll(events.list, entity, now, actions, channel, k);
      ghost var all := delivered + Deliveries(actions);
      next := k;
      for i := 0 to |actions|
        invariant next == k + i
        invariant PerformedAll(events.list, entity, now, actions[i..], channel, next) == goal
        invariant delivered + Deliveries(actions[i..]) == all
      {
        PerformedAllStep(events.list, entity, now, actions, channel, next, i);
        DeliveriesStep(delivered, actions, i);
        Perform(events, now, actions[i], channel(next));
        next := next + 1;
      }
      assert actions[|actions|..] == [];
    }
  }
}
