/**
 * Packet.java: a packet in the simulated network, a mutable object with four
 * fields. `PacketValue` is the value of those fields at one moment; packets
 * that are buffered, scheduled or handed to a host travel as such values, so
 * a copy can never alias the original.
 */
module Packets {
  import opened Wrappers

  datatype PacketValue = PacketValue(seqnum: int, acknum: int, checksum: int, payload: string)

  /** The sum of the character codes of a payload, as `chars().sum()` or the checksum loop add them. */
  function CharSum(s: string): int
  {
    if s == [] then 0 else CharSum(s[..|s| - 1]) + s[|s| - 1] as int
  }

  /** What a payload adds to a checksum: nothing for a null payload, its character sum otherwise. */
  function PayloadSum(payload: Option<string>): (r: int)
    ensures payload == None || payload == Some("") ==> r == 0
  {
    match payload
    case None => 0
    case Some(s) => CharSum(s)
  }

  /** The sum can equally be taken from the front. */
  lemma {:induction false} CharSumFront(s: string)
    requires s != []
    ensures CharSum(s) == s[0] as int + CharSum(s[1..])
  {
    if |s| > 1 {
      var init := s[..|s| - 1];
      CharSumFront(init);
      assert init[1..] == s[1..][..|s[1..]| - 1];
    }
  }

  class Packet {
    var seqnum: int
    var acknum: int
    var checksum: int
    var payload: string

    /** The four fields as a value. */
    function Value(): PacketValue
      reads this
    {
      PacketValue(seqnum, acknum, checksum, payload)
    }

    /** `Packet(Packet p)`: a new object holding the same four fields as p. */
    constructor Copy(p: Packet)
      ensures Value() == p.Value()
    {
      seqnum := p.seqnum;
      acknum := p.acknum;
      checksum := p.checksum;
      payload := p.payload;
    }

    /** `Packet(seq, ack, check)`: a packet with an empty payload. */
    constructor WithoutPayload(seqNo: int, ackNo: int, check: int)
      ensures Value() == PacketValue(seqNo, ackNo, check, "")
    {
      seqnum, acknum, checksum, payload := seqNo, ackNo, check, "";
    }

    /** `Packet(seq, ack, check, pld)`: stores the four fields as given. */
    constructor (seqNo: int, ackNo: int, check: int, pld: string)
      ensures Value() == PacketValue(seqNo, ackNo, check, pld)
    {
      seqnum, acknum, checksum, payload := seqNo, ackNo, check, pld;
    }

    method SetSeqnum(s: int)
      modifies this
      ensures Value() == old(Value()).(seqnum := s)
    {
      seqnum := s;
    }

    method SetAcknum(a: int)
      modifies this
      ensures Value() == old(Value()).(acknum := a)
    {
      acknum := a;
    }

    method SetChecksum(c: int)
      modifies this
      ensures Value() == old(Value()).(checksum := c)
    {
      checksum := c;
    }

    method SetPayload(pld: string)
      modifies this
      ensures Value() == old(Value()).(payload := pld)
    {
      payload := pld;
    }
  }

  /**
   * The pattern the channel relies on: copy a packet, then overwrite a field
   * of the copy. The copy is a new object, so the original keeps its fields.
   */
  method CopyAndSetSeqnum(p: Packet, s: int) returns (copy: Packet)
    ensures fresh(copy)
    ensures copy.Value() == p.Value().(seqnum := s)
    ensures p.Value() == old(p.Value())
  {
    copy := new Packet.Copy(p);
    copy.SetSeqnum(s);
  }
}
