/**
 * NetworkSimulator.java: the discrete-event loop. It repeatedly takes the
 * earliest pending event, sets the clock to its time and hands it to the
 * sender (A) or the receiver (B); the application offers messages at random
 * intervals until maxMessages have been generated.
 *
 * The simulator runs the handler-object stop-and-wait sender and the
 * receiver that answers a bad packet with the ACK for the other bit, both
 * with the weighted checksum. NetworkSimulator.java builds the receiver that
 * echoes the received sequence number instead; this model runs the
 * corrected receiver. The random draws are oracles fixed when the
 * simulator is set up: `channel(k)` decides the k-th action handed to the
 * host layer (only a send looks at it), `uniform(k)` is the
 * `rand.nextDouble()` of the k-th application arrival.
 */
module Simulator {
  import opened Wrappers
  import opened JavaInt
  import opened Packets
  import opened Events
  import opened EventLists
  import opened Hosts
  import opened Schedules
  import Checksums
  import HandlerSender
  import OtherBitReceiver

  /** A value of `rand.nextDouble()`. */
  type Unit = r: real | 0.0 <= r < 1.0

  /** The character of the k-th application message, `(char) (((k - 1) % 26) + 97)`: the alphabet over and over. */
  function Letter(k: int): (c: char)
    ensures k >= 1 ==> 'a' <= c <= 'z' && c as int - 'a' as int == (k - 1) % 26
  {
    var r := Rem(k - 1, 26);
    if k >= 1 then
      ModUnique(k - 1, 26, (k - 1 - r) / 26, r);
      (r + 97) as char
    else
      (r + 97) as char
  }

  /** The k-th application message: MAXDATASIZE copies of its letter. */
  function MessageContent(k: int): string
  {
    seq(MaxDataSize, _ => Letter(k))
  }

  /** Message k and message k + 26 are the same; consecutive messages differ. */
  lemma MessagesCycle(k: int)
    requires k >= 1
    ensures MessageContent(k + 26) == MessageContent(k)
    ensures MessageContent(k + 1) != MessageContent(k)
    ensures forall i :: 0 <= i < |MessageContent(k)| ==> 'a' <= MessageContent(k)[i] <= 'z'
  {
    ModUnique(k - 1 + 26, 26, (k - 1) / 26 + 1, (k - 1) % 26);
    assert MessageContent(k + 1)[0] == Letter(k + 1) != Letter(k);
  }

  /** The wait before an application message, `0.5 * avg + avg * u`: between half and one and a half times the average. */
  function AppDelay(avg: real, u: Unit): (x: real)
    ensures avg >= 0.0 ==> 0.5 * avg <= x <= 1.5 * avg
    ensures avg > 0.0 ==> x < 1.5 * avg
  {
    assert avg >= 0.0 ==> 0.0 <= avg * u <= avg;
    assert avg > 0.0 ==> avg * u < avg;
    0.5 * avg + avg * u
  }

  /** Carrying out a handler's actions keeps the list sound, timely and with as many application messages. */
  lemma {:induction false} PerformedAllSound(s: seq<Event>, entity: int, now: real, actions: seq<Action>, channel: nat -> ChannelDraw, k: nat)
    requires Sound(s) && forall i :: 0 <= i < |actions| ==> Forward(actions[i])
    ensures Sound(PerformedAll(s, entity, now, actions, channel, k))
    ensures Timely(s, now) ==> Timely(PerformedAll(s, entity, now, actions, channel, k), now)
    ensures Count(PerformedAll(s, entity, now, actions, channel, k), AppMessages) == Count(s, AppMessages)
    decreases |actions|
  {
    if actions != [] {
      PerformedSound(s, entity, now, actions[0], channel(k));
      PerformedAllSound(Performed(s, entity, now, actions[0], channel(k)), entity, now, actions[1..], channel, k + 1);
    }
  }

  /** The handlers only start timers with their positive timer length. */
  predicate AllForward(actions: seq<Action>)
  {
    forall i :: 0 <= i < |actions| ==> Forward(actions[i])
  }

  ghost predicate Chronological(d: seq<Event>)
  {
    forall i, j :: 0 <= i < j < |d| ==> d[i].time <= d[j].time
  }

  /**
   * The application messages: at most one is pending (or taken off the
   * list but not yet handled), every generated one is offered or pending,
   * and message k is `MessageContent(k)`.
   */
  ghost predicate Bookkeeping(s: seq<Event>, offered: seq<string>, nMsgSim: nat, taken: nat)
  {
    Count(s, AppMessages) + taken <= 1 &&
    |offered| + Count(s, AppMessages) + taken == nMsgSim &&
    forall i :: 0 <= i < |offered| ==> offered[i] == MessageContent(i + 1)
  }

  /**
   * With a non-negative average delay: nothing is scheduled before the
   * clock, arrivals at each entity are in time order, and the events were
   * handled in time order, none after the clock.
   */
  ghost predicate Clocked(avg: real, s: seq<Event>, now: real, dispatched: seq<Event>)
  {
    avg >= 0.0 ==>
      Timely(s, now) && Chronological(dispatched) &&
      forall i :: 0 <= i < |dispatched| ==> dispatched[i].time <= now
  }

  /** Taking the earliest event off the list and handling it keeps the events handled in time order. */
  lemma TakeEarliestClocked(avg: real, s: seq<Event>, now: real, dispatched: seq<Event>)
    requires s != [] && Sound(s) && Clocked(avg, s, now, dispatched)
    ensures Sound(RemoveAt(s, Earliest(s)))
    ensures avg >= 0.0 ==> s[Earliest(s)].time >= now
    ensures Clocked(avg, RemoveAt(s, Earliest(s)), s[Earliest(s)].time, dispatched + [s[Earliest(s)]])
  {
    RemoveEarliestSound(s, now);
  }

  class NetworkSimulator {
    const maxMessages: int
    const avgMessageDelay: real
    const channel: nat -> ChannelDraw
    const uniform: nat -> Unit
    /** The number of application messages generated so far. */
    var nMsgSim: nat
    var time: real
    /** How many channel draws have been used. */
    var draws: nat
    const eventList: EventList
    const sender: HandlerSender.Sender
    const receiver: OtherBitReceiver.Receiver
    const hostA: NetworkHost
    const hostB: NetworkHost
    /** The events taken off the list so far, in order. */
    ghost var dispatched: seq<Event>
    /** The messages handed to the sender so far, in order. */
    ghost var offered: seq<string>

    /** The invariant of the loop, with `taken` application messages off the list but not yet handled. */
    ghost predicate Invariant(taken: nat)
      reads this, eventList, sender
    {
      hostA.entity == A && hostB.entity == B && sender.scheme == OtherBitReceiver.Checksum &&
      Sound(eventList.list) && HandlerSender.Valid(sender.scheme, sender.state) &&
      Bookkeeping(eventList.list, offered, nMsgSim, taken) &&
      Clocked(avgMessageDelay, eventList.list, time, dispatched)
    }

    ghost predicate Valid()
      reads this, eventList, sender
    {
      Invariant(0)
    }

    /** `getInstance()` followed by `initSimulator(...)`: no message yet, clock 0, empty event list, a new sender A and receiver B. */
    constructor (maxMsgs: int, delay: real, channel: nat -> ChannelDraw, uniform: nat -> Unit)
      ensures Valid()
      ensures maxMessages == maxMsgs && avgMessageDelay == delay && this.channel == channel && this.uniform == uniform
      ensures nMsgSim == 0 && time == 0.0 && eventList.list == [] && dispatched == [] && offered == []
      ensures fresh(eventList) && fresh(sender) && fresh(receiver) && fresh(hostA) && fresh(hostB)
      ensures hostA.entity == A && hostB.entity == B && hostA.delivered == [] && hostB.delivered == []
      ensures sender.scheme == Checksums.WeightedSum && sender.state == HandlerSender.WaitForApplicationMessage(0)
      ensures receiver.state == OtherBitReceiver.WaitForPacket(0)
    {
      maxMessages := maxMsgs;
      avgMessageDelay := delay;
      this.channel := channel;
      this.uniform := uniform;
      nMsgSim := 0;
      time := 0.0;
      draws := 0;
      eventList := new EventList();
      sender := new HandlerSender.Sender(OtherBitReceiver.Checksum);
      receiver := new OtherBitReceiver.Receiver();
      hostA := new NetworkHost(A);
      hostB := new NetworkHost(B);
      dispatched := [];
      offered := [];
    }

    /** `generateNextArrival()`: one more application message, due after the random wait, and the counter goes up by one. */
    method GenerateNextArrival()
      modifies this`nMsgSim, eventList
      ensures eventList.list == old(eventList.list) + [Event(time + AppDelay(avgMessageDelay, uniform(old(nMsgSim))), FromApp, A, None)]
      ensures nMsgSim == old(nMsgSim) + 1
      ensures time == old(time) && draws == old(draws) && dispatched == old(dispatched) && offered == old(offered)
    {
      var x := 0.5 * avgMessageDelay + avgMessageDelay * uniform(nMsgSim);
      var next := Event(time + x, FromApp, A, None);
      eventList.Add(next);
      nMsgSim := nMsgSim + 1;
    }

    /** What `generateNextArrival()` appends after message n is handled: the next message, while fewer than maxMessages exist. */
    ghost function NextArrival(n: nat): seq<Event>
      reads this
    {
      if n < maxMessages then [Event(time + AppDelay(avgMessageDelay, uniform(n)), FromApp, A, None)] else []
    }

    /** The content of the message being handed down: `MAXDATASIZE` copies of the counter's letter. */
    method MakeMessage() returns (message: string)
      ensures message == MessageContent(nMsgSim)
    {
      var nextMessage := new char[MaxDataSize];
      var j := (Rem(nMsgSim - 1, 26) + 97) as char;
      assert j == Letter(nMsgSim);
      for i := 0 to MaxDataSize
        invariant forall k :: 0 <= k < i ==> nextMessage[k] == j
      {
        nextMessage[i] := j;
      }
      message := nextMessage[..];
    }

    /** Hands a handler's actions to its host and keeps the invariant: the actions schedule no application message. */
    method Carry(host: NetworkHost, actions: seq<Action>, ghost taken: nat)
      requires Invariant(taken) && AllForward(actions) && (host == hostA || host == hostB)
      modifies this`draws, eventList, host
      ensures Invariant(taken)
      ensures eventList.list == PerformedAll(old(eventList.list), host.entity, time, actions, channel, old(draws))
      ensures host.delivered == old(host.delivered) + Deliveries(actions)
      ensures draws == old(draws) + |actions|
      ensures Count(eventList.list, AppMessages) == old(Count(eventList.list, AppMessages))
    {
      PerformedAllSound(eventList.list, host.entity, time, actions, channel, draws);
      draws := host.PerformAll(eventList, time, actions, channel, draws);
    }

    /**
     * The switch on the event's kind: a timer goes to the sender only if it
     * is A's; an arrival goes to `sender.input` at A and `receiver.input` at
     * B; an application message goes to `sender.output` and, while fewer
     * than maxMessages have been generated, the next one is scheduled. Any
     * other entity gets nothing.
     */
    method Dispatch(e: Event)
      requires Invariant(if e.kind == FromApp then 1 else 0)
      requires e.kind == FromNetwork ==> e.packet.Some?
      modifies this, eventList, sender, receiver, hostA, hostB
      ensures Valid() && time == old(time) && dispatched == old(dispatched)
      ensures e.kind != FromApp ==>
                nMsgSim == old(nMsgSim) && offered == old(offered) &&
                Count(eventList.list, AppMessages) == old(Count(eventList.list, AppMessages))
      ensures e.kind == FromApp ==>
                nMsgSim == old(nMsgSim) + (if old(nMsgSim) < maxMessages then 1 else 0) &&
                Count(eventList.list, AppMessages) == (if old(nMsgSim) < maxMessages then 1 else 0)
      // A's timer: the sender's timerInterrupt, carried out by host A.
      ensures e.kind == TimerInterrupt && e.entity == A ==>
                var r := HandlerSender.HandleTimerInterrupt(HandlerSender.TimerLength, old(sender.state));
                sender.state == r.next && receiver.state == old(receiver.state) &&
                eventList.list == PerformedAll(old(eventList.list), A, time, r.actions, channel, old(draws)) &&
                hostA.delivered == old(hostA.delivered) + Deliveries(r.actions) && hostB.delivered == old(hostB.delivered)
      // An arrival at A: the sender's input, carried out by host A.
      ensures e.kind == FromNetwork && e.entity == A ==>
                var r := HandlerSender.HandleInput(sender.scheme, old(sender.state), e.packet.value);
                sender.state == r.next && receiver.state == old(receiver.state) &&
                eventList.list == PerformedAll(old(eventList.list), A, time, r.actions, channel, old(draws)) &&
                hostA.delivered == old(hostA.delivered) + Deliveries(r.actions) && hostB.delivered == old(hostB.delivered)
      // An arrival at B: the receiver's input, carried out by host B.
      ensures e.kind == FromNetwork && e.entity == B ==>
                var r := OtherBitReceiver.HandleInput(old(receiver.state), e.packet.value);
                receiver.state == r.next && sender.state == old(sender.state) &&
                eventList.list == PerformedAll(old(eventList.list), B, time, r.actions, channel, old(draws)) &&
                hostB.delivered == old(hostB.delivered) + Deliveries(r.actions) && hostA.delivered == old(hostA.delivered)
      // A timer of any other entity, or an arrival for an unknown one: no handler runs.
      ensures (e.kind == TimerInterrupt && e.entity != A) || (e.kind == FromNetwork && e.entity != A && e.entity != B) ==>
                sender.state == old(sender.state) && receiver.state == old(receiver.state) &&
                eventList.list == old(eventList.list) && draws == old(draws) &&
                hostA.delivered == old(hostA.delivered) && hostB.delivered == old(hostB.delivered)
      // An application message: the sender's output of message nMsgSim, then possibly the next arrival.
      ensures e.kind == FromApp ==>
                var message := MessageContent(old(nMsgSim));
                var r := HandlerSender.HandleOutput(sender.scheme, HandlerSender.TimerLength, old(sender.state), message);
                sender.state == r.next && receiver.state == old(receiver.state) && offered == old(offered) + [message] &&
                eventList.list == PerformedAll(old(eventList.list), A, time, r.actions, channel, old(draws)) + NextArrival(old(nMsgSim)) &&
                hostA.delivered == old(hostA.delivered) + Deliveries(r.actions) && hostB.delivered == old(hostB.delivered)
    {
      match e.kind {
        case TimerInterrupt =>
          if e.entity == A {
            var actions := sender.TimerInterrupt();
            Carry(hostA, actions, 0);
          }
        case FromNetwork =>
          if e.entity == A {
            var actions := sender.Input(e.packet.value);
            Carry(hostA, actions, 0);
          } else if e.entity == B {
            var actions := receiver.Input(e.packet.value);
            Carry(hostB, actions, 0);
          }
        case FromApp =>
          DispatchApp();
      }
    }

    /** The application-message branch of the switch. */
    method DispatchApp()
      requires Invariant(1)
      modifies this, eventList, sender, hostA
      ensures Valid() && time == old(time) && dispatched == old(dispatched)
      ensures nMsgSim == old(nMsgSim) + (if old(nMsgSim) < maxMessages then 1 else 0)
      ensures Count(eventList.list, AppMessages) == if old(nMsgSim) < maxMessages then 1 else 0
      ensures var message := MessageContent(old(nMsgSim));
              var r := HandlerSender.HandleOutput(sender.scheme, HandlerSender.TimerLength, old(sender.state), message);
              sender.state == r.next && offered == old(offered) + [message] &&
              eventList.list == PerformedAll(old(eventList.list), A, time, r.actions, channel, old(draws)) + NextArrival(old(nMsgSim)) &&
              hostA.delivered == old(hostA.delivered) + Deliveries(r.actions)
    {
      OfferMessage();
      ScheduleNext();
    }

    /** The first half of the application-message branch: message nMsgSim goes to `sender.output`, and host A carries out what it does. */
    method OfferMessage()
      requires Invariant(1)
      modifies this`offered, this`draws, eventList, sender, hostA
      ensures Invariant(0)
      ensures Count(eventList.list, AppMessages) == old(Count(eventList.list, AppMessages))
      ensures var message := MessageContent(nMsgSim);
              var r := HandlerSender.HandleOutput(sender.scheme, HandlerSender.TimerLength, old(sender.state), message);
              sender.state == r.next && offered == old(offered) + [message] &&
              eventList.list == PerformedAll(old(eventList.list), A, time, r.actions, channel, old(draws)) &&
              hostA.delivered == old(hostA.delivered) + Deliveries(r.actions)
    {
      var message := MakeMessage();
      offered := offered + [message];
      assert Invariant(0);
      var actions := sender.Output(message);
      Carry(hostA, actions, 0);
    }

    /** The second half: while fewer than maxMessages have been generated, `generateNextArrival()`. */
    method ScheduleNext()
      requires Invariant(0) && Count(eventList.list, AppMessages) == 0
      modifies this`nMsgSim, eventList
      ensures Valid()
      ensures nMsgSim == old(nMsgSim) + (if old(nMsgSim) < maxMessages then 1 else 0)
      ensures eventList.list == old(eventList.list) + NextArrival(old(nMsgSim))
      ensures Count(eventList.list, AppMessages) == if old(nMsgSim) < maxMessages then 1 else 0
    {
      ghost var s := eventList.list;
      if nMsgSim < maxMessages {
        GenerateNextArrival();
        AppendOtherSound(s, eventList.list[|s|], time);
      }
    }

    /**
     * `runSimulator()`, for at most fuel events: initialise both hosts,
     * schedule the first application message, then take the earliest event,
     * set the clock to its time and dispatch it, until the list is empty.
     * When it empties, exactly max(1, maxMessages) messages were generated
     * and offered to the sender, in order; with a non-negative average
     * delay the clock never goes back.
     */
    method RunSimulator(fuel: nat) returns (finished: bool)
      requires Valid() && nMsgSim == 0
      modifies this, eventList, sender, receiver, hostA, hostB
      ensures Valid()
      ensures finished ==> eventList.list == [] && nMsgSim == |offered| == if maxMessages < 1 then 1 else maxMessages
      ensures avgMessageDelay >= 0.0 ==> Chronological(dispatched) && time >= old(time)
    {
      sender.Init();
      receiver.Init();
      ghost var s := eventList.list;
      GenerateNextArrival();
      AppendOtherSound(s, eventList.list[|s|], time);
      finished := false;
      var n := fuel;
      while n > 0
        invariant Valid() && 1 <= nMsgSim <= if maxMessages < 1 then 1 else maxMessages
        invariant Count(eventList.list, AppMessages) == 0 ==> nMsgSim >= maxMessages
        invariant avgMessageDelay >= 0.0 ==> time >= old(time)
        invariant finished ==> eventList.list == []
        decreases n
      {
        finished := Step();
        if finished {
          break;
        }
        n := n - 1;
      }
    }

    /**
     * One turn of the loop of `runSimulator()`: take the earliest event off
     * the list, set the clock to its time and dispatch it; report an empty
     * list instead when there is none.
     */
    method Step() returns (empty: bool)
      requires Valid()
      modifies this, eventList, sender, receiver, hostA, hostB
      ensures Valid()
      ensures empty <==> old(eventList.list) == []
      ensures empty ==> eventList.list == [] && nMsgSim == old(nMsgSim)
      ensures !empty ==>
                var k := Earliest(old(eventList.list));
                time == old(eventList.list)[k].time && dispatched == old(dispatched) + [old(eventList.list)[k]]
      ensures nMsgSim == old(nMsgSim) || (old(nMsgSim) < maxMessages && nMsgSim == old(nMsgSim) + 1)
      ensures Count(eventList.list, AppMessages) == 0 ==> old(Count(eventList.list, AppMessages)) == 0 || nMsgSim >= maxMessages
      ensures avgMessageDelay >= 0.0 ==> time >= old(time)
    {
      ghost var before := eventList.list;
      var next := eventList.RemoveNext();
      if next.None? {
        return true;
      }
      TakeEarliestClocked(avgMessageDelay, before, time, dispatched);
      var e := next.value;
      assert e.kind == FromNetwork ==> e.packet.Some?;
      CountRemoveAt(before, Earliest(before), AppMessages);
      time := e.time;
      dispatched := dispatched + [e];
      Dispatch(e);
      return false;
    }
  }
}
