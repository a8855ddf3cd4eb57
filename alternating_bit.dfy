/**
 * What the stop-and-wait hosts share: sequence numbers are single bits,
 * and every event handler yields its successor state together with the
 * effects it performed, in order.
 */
module AlternatingBit {
  import opened JavaInt
  import opened Hosts

  predicate IsBit(b: int) { b == 0 || b == 1 }

  /** `(b + 1) % 2` with Java's remainder: the other bit. */
  function Flip(b: int): (r: int)
    ensures IsBit(b) ==> IsBit(r) && r != b
  {
    Rem(b + 1, 2)
  }

  /** A handler's successor state and the host services it called. */
  datatype Transition<S> = Transition(next: S, actions: seq<Action>)
}
