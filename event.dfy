/**
 * Event.java and the entity identifiers of NetworkSimulator.java. The core
 * never mutates an event after creating it, so an event is a value: its
 * getters are the datatype's fields and a setter is an update expression
 * such as `e.(time := t)`.
 */
module Events {
  import opened Wrappers
  import opened Packets

  /** The sender (A) and the receiver (B). */
  const A: int := 12345
  const B: int := 67890

  datatype EventType = TimerInterrupt | FromNetwork | FromApp

  /** `packet` is `None` where the source stores null (the three-argument constructor). */
  datatype Event = Event(time: real, kind: EventType, entity: int, packet: Option<PacketValue>)
}
