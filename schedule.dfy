/**
 * Properties of the pending-event list that the simulator keeps from event
 * to event: at most one timer per entity, every arrival carries a packet,
 * nothing is scheduled in the past and, once the clock is not negative,
 * arrivals at each entity are listed in time order. Each lemma shows one
 * list operation of the host layer keeps them.
 */
module Schedules {
  import opened Wrappers
  import opened Packets
  import opened Events
  import opened EventLists
  import opened Hosts

  ghost predicate OneTimerEach(s: seq<Event>)
  {
    forall entity :: Count(s, TimersOf(entity)) <= 1
  }

  predicate ArrivalsCarryPackets(s: seq<Event>)
  {
    forall i :: 0 <= i < |s| && s[i].kind == FromNetwork ==> s[i].packet.Some?
  }

  predicate NotBefore(s: seq<Event>, now: real)
  {
    forall i :: 0 <= i < |s| ==> s[i].time >= now
  }

  ghost predicate InOrder(s: seq<Event>)
  {
    forall dest :: ArrivalsOrdered(s, dest)
  }

  /** What every list operation keeps. */
  ghost predicate Sound(s: seq<Event>)
  {
    OneTimerEach(s) && ArrivalsCarryPackets(s)
  }

  /** What the list operations keep while the clock is not negative and no event is in the past. */
  ghost predicate Timely(s: seq<Event>, now: real)
  {
    now >= 0.0 && NotBefore(s, now) && InOrder(s)
  }

  /** An action the host layer can schedule without going back in time. */
  predicate Forward(a: Action)
  {
    a.StartTimer? ==> a.increment >= 0.0
  }

  /** Removing any one event keeps every property. */
  lemma RemoveAtSound(s: seq<Event>, k: nat, now: real)
    requires k < |s| && Sound(s)
    ensures Sound(RemoveAt(s, k))
    ensures Timely(s, now) ==> Timely(RemoveAt(s, k), now)
  {
    var r := RemoveAt(s, k);
    forall entity ensures Count(r, TimersOf(entity)) <= 1 {
      CountRemoveAt(s, k, TimersOf(entity));
    }
    if Timely(s, now) {
      forall dest ensures ArrivalsOrdered(r, dest) {
        assert ArrivalsOrdered(s, dest);
        forall i, j | 0 <= i < j < |r| && Matches(ArrivalsAt(dest), r[i]) && Matches(ArrivalsAt(dest), r[j])
          ensures r[i].time <= r[j].time
        {
          var i', j' := if i < k then i else i + 1, if j < k then j else j + 1;
          assert r[i] == s[i'] && r[j] == s[j'];
        }
      }
    }
  }

  /**
   * Removing the earliest event keeps every property, with the clock
   * advanced to the removed event's time (not negative if the old clock
   * was not).
   */
  lemma RemoveEarliestSound(s: seq<Event>, now: real)
    requires s != [] && Sound(s)
    ensures Sound(RemoveAt(s, Earliest(s)))
    ensures Timely(s, now) ==> s[Earliest(s)].time >= now && Timely(RemoveAt(s, Earliest(s)), s[Earliest(s)].time)
    ensures Count(RemoveAt(s, Earliest(s)), AppMessages) == Count(s, AppMessages) - (if s[Earliest(s)].kind == FromApp then 1 else 0)
  {
    var k := Earliest(s);
    var t := s[k].time;
    RemoveAtSound(s, k, t);
    CountRemoveAt(s, k, AppMessages);
  }

  /** Appending an event that is neither a timer nor an arrival, and not in the past, keeps every property. */
  lemma AppendOtherSound(s: seq<Event>, e: Event, now: real)
    requires Sound(s) && e.kind == FromApp
    ensures Sound(s + [e])
    ensures Timely(s, now) && e.time >= now ==> Timely(s + [e], now)
    ensures Count(s + [e], AppMessages) == Count(s, AppMessages) + 1
  {
    var r := s + [e];
    forall entity ensures Count(r, TimersOf(entity)) <= 1 {
      CountAppend(s, e, TimersOf(entity));
    }
    CountAppend(s, e, AppMessages);
    if Timely(s, now) && e.time >= now {
      AppendNonArrivalTimely(s, e, now);
    }
  }

  /** What `udtSend` appends keeps every property: the new arrival comes after every pending one at its destination. */
  lemma ScheduledSound(s: seq<Event>, entity: int, now: real, p: PacketValue, draw: ChannelDraw)
    requires Sound(s)
    ensures Sound(s + Scheduled(s, entity, now, p, draw))
    ensures Timely(s, now) ==> Timely(s + Scheduled(s, entity, now, p, draw), now)
    ensures Count(s + Scheduled(s, entity, now, p, draw), AppMessages) == Count(s, AppMessages)
  {
    var added := Scheduled(s, entity, now, p, draw);
    if added == [] {
      assert s + added == s;
    } else {
      var e := added[0];
      assert added == [e];
      AppendArrivalSound(s, e);
      if Timely(s, now) {
        assert e.time == ArrivalTime(s, e.entity, now, draw.jitter);
        AppendArrivalTimely(s, e, now, draw.jitter);
      }
    }
  }

  /** Appending an arrival that carries a packet keeps the counts and the packets. */
  lemma AppendArrivalSound(s: seq<Event>, e: Event)
    requires Sound(s) && e.kind == FromNetwork && e.packet.Some?
    ensures Sound(s + [e])
    ensures Count(s + [e], AppMessages) == Count(s, AppMessages)
  {
    var r := s + [e];
    forall entity' ensures Count(r, TimersOf(entity')) <= 1 {
      CountAppend(s, e, TimersOf(entity'));
    }
    CountAppend(s, e, AppMessages);
  }

  /** Appending an arrival at its `udtSend` arrival time keeps the time properties. */
  lemma AppendArrivalTimely(s: seq<Event>, e: Event, now: real, jitter: Delay)
    requires Timely(s, now) && e.time == ArrivalTime(s, e.entity, now, jitter)
    ensures Timely(s + [e], now)
  {
    var r := s + [e];
    ArrivalAfterPending(s, e.entity, now, jitter);
    forall d ensures ArrivalsOrdered(r, d) {
      assert ArrivalsOrdered(s, d);
    }
  }

  /** Appending an event that is not an arrival and not in the past keeps the time properties. */
  lemma AppendNonArrivalTimely(s: seq<Event>, e: Event, now: real)
    requires Timely(s, now) && e.kind != FromNetwork && e.time >= now
    ensures Timely(s + [e], now)
  {
    var r := s + [e];
    forall dest ensures ArrivalsOrdered(r, dest) {
      assert ArrivalsOrdered(s, dest);
    }
  }

  /** Starting a timer keeps at most one timer per entity and the number of pending application messages. */
  lemma TimerStartedCounts(s: seq<Event>, entity: int, now: real, increment: real)
    requires OneTimerEach(s)
    ensures OneTimerEach(TimerStarted(s, entity, now, increment))
    ensures Count(TimerStarted(s, entity, now, increment), AppMessages) == Count(s, AppMessages)
  {
    TimerStartedKeepsOne(s, entity, now, increment);
    var r := TimerStarted(s, entity, now, increment);
    forall entity' ensures Count(r, TimersOf(entity')) <= 1 {
      assert Count(s, TimersOf(entity')) <= 1;
    }
  }

  /** Starting a timer with a non-negative increment keeps every property. */
  lemma TimerStartedSound(s: seq<Event>, entity: int, now: real, increment: real)
    requires Sound(s) && increment >= 0.0
    ensures Sound(TimerStarted(s, entity, now, increment))
    ensures Timely(s, now) ==> Timely(TimerStarted(s, entity, now, increment), now)
    ensures Count(TimerStarted(s, entity, now, increment), AppMessages) == Count(s, AppMessages)
  {
    TimerStartedCounts(s, entity, now, increment);
    match FirstMatch(s, TimersOf(entity))
    case Some(k) =>
      RemoveAtSound(s, k, now);
      if Timely(s, now) {
        AppendNonArrivalTimely(RemoveAt(s, k), s[k], now);
      }
    case None =>
      if Timely(s, now) {
        AppendNonArrivalTimely(s, Event(now + increment, TimerInterrupt, entity, None), now);
      }
  }

  /** Stopping a timer keeps every property. */
  lemma WithoutTimerSound(s: seq<Event>, entity: int, now: real)
    requires Sound(s)
    ensures Sound(WithoutTimer(s, entity))
    ensures Timely(s, now) ==> Timely(WithoutTimer(s, entity), now)
    ensures Count(WithoutTimer(s, entity), AppMessages) == Count(s, AppMessages)
  {
    match FirstMatch(s, TimersOf(entity))
    case None =>
    case Some(k) =>
      RemoveAtSound(s, k, now);
      CountRemoveAt(s, k, AppMessages);
  }

  /** Every action a handler hands to the host layer keeps every property and the number of pending application messages. */
  lemma PerformedSound(s: seq<Event>, entity: int, now: real, a: Action, draw: ChannelDraw)
    requires Sound(s) && Forward(a)
    ensures Sound(Performed(s, entity, now, a, draw))
    ensures Timely(s, now) ==> Timely(Performed(s, entity, now, a, draw), now)
    ensures Count(Performed(s, entity, now, a, draw), AppMessages) == Count(s, AppMessages)
  {
    match a
    case Send(p) => ScheduledSound(s, entity, now, p, draw);
    case StartTimer(increment) => TimerStartedSound(s, entity, now, increment);
    case StopTimer => WithoutTimerSound(s, entity, now);
    case Deliver(_) =>
  }
}
