# jrdt-simulator in Dafny

jrdt-simulator is a discrete-event network simulator with two hosts. Host A
is a sender and host B is a receiver. They exchange packets over a channel
that can lose and corrupt packets but never reorders them.

`NetworkSimulator` keeps the pending events in an `EventList`. It takes the
earliest event off the list, sets the clock to that event's time, and hands
the event to the sender or the receiver. `NetworkHost` gives each host its
services:
- one timer per host;
- `udtSend`, the unreliable transmission;
- `deliverData`, which hands data to the application above.

The repository contains several versions of the reliable-transfer protocols
that run on top:
- **Stop-and-wait** (the alternating-bit protocol), in three forms:
  - a sender built from handler objects, one per state, which exists twice
    (`StopAndWait/src/main` and `src/main`);
  - a sender whose state is an enum (`StopAndWait/src/transport`);
  - two receivers. They differ on a bad packet: one answers with the ACK for
    the other bit, the other echoes the sequence number it received.
- **Go-Back-N**, in two versions:
  - a sender that drops an application message when its buffer is full
    (`GoBackN/src/transport`);
  - a sender that throws `"buffer overflow"` instead
    (`GoBackN/src/main/java/transport`), used with its cumulative-ACK
    receiver.
- **Two checksum schemes**: the one's complement of the 32-bit sum of all the
  fields, and the weighted sum `33·seq + 57·ack + Σchars`.

## How the model is built
- **Handlers return actions.** A handler does not call the host services.
  It returns the `Action`s it performs, in order: `Send`, `StartTimer`,
  `StopTimer`, `Deliver`. `Hosts.NetworkHost.Perform` carries each action
  out on the event list. No handler reads anything back from a service
  call, so this is the same as calling the services.
- **Handler-object senders** (`HandlerSender`), both receiver variants and
  the alternating bit are pure transition functions. Each Java class that
  holds the current state becomes a `class` whose methods equal those
  functions.
- **Enum sender.** `EnumSender.Sender` keeps the enum state, the bit and the
  stored packet as fields. Its methods are proved equal to the handler-object
  transitions.
- **Go-Back-N senders** keep their ring buffer as an `array`. The invariant
  `GoBackN.Buffered` says that every slot of a sequence number in
  [base, nextSeqNum) holds the packet for the application message with that
  number.
  - `Output` is proved against its new state.
  - `timerInterrupt` resends exactly the window.
  - The slide loop in `input` is specified by a function over the buffer.
    Lemmas then compute which packets the slide sends.
- **Event list and hosts.** `EventList` is a class over a `seq<Event>`.
  Its loops are proved against `Earliest`, `FirstMatch` and `LastMatch`.
  `NetworkHost`'s timer and channel operations are proved against functions
  on the list. The `Schedules` lemmas show that every list operation keeps
  four properties:
  - at most one timer per host;
  - an arrival always carries a packet;
  - nothing is scheduled in the past;
  - arrivals at each host come in time order.
- **Simulator.** `Simulator.NetworkSimulator` runs that loop over the
  handler-object sender and the receiver that answers with the other bit,
  using the weighted checksum. The Java simulator builds the echo receiver
  at this point; the model runs its corrected form (see Findings). While it
  runs, it keeps three properties:
  - the bookkeeping of application messages;
  - the event-list properties above;
  - the clock's monotonicity, given a non-negative average delay.

  Each event is dispatched against the handler functions: `Dispatch` says
  which handler runs, and gives the new sender and receiver states, the new
  event list (`Hosts.PerformedAll` of the handler's actions) and each
  host's deliveries.
- **Integers** follow Java's 32-bit two's-complement arithmetic (`JavaInt`)
  wherever a checksum is computed. `%` is Java's remainder. `Math.abs`
  leaves `MIN_VALUE` negative.

## Model

| member | source | states |
|---|---|---|
| JavaInt.Wrap | GoBackN/src/main/java/transport/Checksum.java:36 | the 32-bit value of an int sum differs from the true sum by a multiple of 2^32 |
| JavaInt.WrapOfInt32 | GoBackN/src/main/java/transport/Checksum.java:36 | a value already in int range is unchanged by wrapping |
| JavaInt.WrapEqualIff | GoBackN/src/main/java/transport/Checksum.java:36-43 | two sums wrap to the same int exactly when they are congruent modulo 2^32 |
| JavaInt.WrapAdd | GoBackN/src/main/java/transport/Checksum.java:42 | adding to an already wrapped running total gives the wrap of the whole sum, so the per-character wrap-around of the loop does not matter |
| JavaInt.Complement | GoBackN/src/main/java/transport/Checksum.java:46 | `~x` is the int that adds to x to give -1 |
| JavaInt.Rem | src/main/java/transport/NetworkSimulator.java:130 | Java's `%`: congruent to the dividend, with the dividend's sign and smaller than the divisor in magnitude |
| JavaInt.PositiveModulo | GoBackN/src/main/java/transport/Sender.java:128 | `(x % n + n) % n` is the non-negative residue of x, for negative x too |
| JavaInt.PositiveModuloIsEuclidean | GoBackN/src/transport/Sender.java:156 | Java's `%` applied twice as `index` writes it equals the mathematical residue |
| JavaInt.Abs | StopAndWait/src/main/java/transport/NetworkHost.java:106 | `Math.abs` gives a non-negative result of the same magnitude, except MIN_VALUE, which stays negative |
| Packets.Packet.Copy | StopAndWait/src/main/java/transport/Packet.java:14-19 | the copy constructor produces a packet with the same four fields |
| Packets.Packet.WithoutPayload | StopAndWait/src/main/java/transport/Packet.java:21-26 | the three-argument constructor gives an empty payload |
| Packets.Packet.constructor | StopAndWait/src/main/java/transport/Packet.java:28-33 | the four-argument constructor stores its fields as given |
| Packets.Packet.SetSeqnum | StopAndWait/src/main/java/transport/Packet.java:39-41 | only the sequence number changes |
| Packets.Packet.SetAcknum | StopAndWait/src/main/java/transport/Packet.java:47-49 | only the acknowledgement number changes |
| Packets.Packet.SetChecksum | StopAndWait/src/main/java/transport/Packet.java:55-57 | only the checksum changes |
| Packets.Packet.SetPayload | StopAndWait/src/main/java/transport/Packet.java:63-65 | only the payload changes |
| Packets.CopyAndSetSeqnum | StopAndWait/src/main/java/transport/NetworkHost.java:62-64 | corrupting a fresh copy leaves the caller's packet (kept for retransmission) untouched |
| EventLists.RemoveAt | src/main/java/transport/EventList.java:44 | removing one event leaves the others in their order |
| EventLists.CountAppend | src/main/java/transport/EventList.java:18-20 | appending an event raises the count of matching events by one exactly when it matches |
| EventLists.CountRemoveAt | src/main/java/transport/EventList.java:43-44 | removing an event lowers the count of matching events by one exactly when it matched |
| EventLists.CountZeroIff | src/main/java/transport/EventList.java:60-65 | no event of a kind is counted exactly when no list entry is of that kind |
| EventLists.FirstMatch | src/main/java/transport/EventList.java:60-65 | the timer search finds the first timer of the entity, or none exactly when the list holds none |
| EventLists.FirstMatchAppend | StopAndWait/src/main/java/transport/NetworkHost.java:43-44 | a new timer appended to a list without one is the one the next search finds |
| EventLists.LastMatch | src/main/java/transport/EventList.java:86-92 | the arrival scan ends on the last arrival at the destination, or none exactly when there is none |
| EventLists.Earliest | src/main/java/transport/EventList.java:34-41 | the chosen index holds a minimal time, and every earlier index a strictly later time (the first of equal times wins) |
| EventLists.EventList.constructor | src/main/java/transport/EventList.java:14-16 | a new list is empty |
| EventLists.EventList.Add | src/main/java/transport/EventList.java:18-20 | the event is appended at the end |
| EventLists.EventList.RemoveNext | src/main/java/transport/EventList.java:27-47 | null exactly for an empty list; otherwise the earliest event is returned and removed, and the rest stay in order |
| EventLists.EventList.RemoveTimer | src/main/java/transport/EventList.java:56-74 | returns and removes the entity's first timer; the list is unchanged when it has none |
| EventLists.EventList.GetLastPacketTime | src/main/java/transport/EventList.java:83-95 | the time of the last pending arrival at the entity, or 0.0 |
| Hosts.DefaultHandler | StopAndWait/src/main/java/transport/NetworkHost.java:10-24 | a callback the host does not override always fails, naming the callback and the entity; it stands alone, since the simulator only calls callbacks its hosts override |
| Hosts.Garbled | StopAndWait/src/main/java/transport/NetworkHost.java:96-101 | the garbled payload starts with '='; from two characters on it keeps the length and every later character, and a shorter payload becomes "=" |
| Hosts.Corrupted | StopAndWait/src/main/java/transport/NetworkHost.java:88-111 | the channel never touches the checksum, leaves an intact draw's packet as it is, and changes at most one of payload, seqnum and acknum |
| Hosts.ArrivalTime | StopAndWait/src/main/java/transport/NetworkHost.java:113-121 | with no pending arrival (last time not positive) a packet arrives 1 + jitter after now; otherwise at least one time unit after the last pending arrival |
| Hosts.Scheduled | StopAndWait/src/main/java/transport/NetworkHost.java:69-85 | udtSend schedules at most one event; none exactly when the packet is lost or the sender is neither A nor B; otherwise an arrival carrying a packet at the other host |
| Hosts.TimerStarted | StopAndWait/src/main/java/transport/NetworkHost.java:37-45 | after startTimer the list ends with the entity's timer; with none pending, a new timer due at now + increment is appended to the list |
| Hosts.TimerStartedReorders | StopAndWait/src/main/java/transport/NetworkHost.java:37-41 | with a timer pending, startTimer only moves it: the list holds the same events as before |
| Hosts.TimerStartedKeepsOne | StopAndWait/src/main/java/transport/NetworkHost.java:37-45 | after startTimer the entity has exactly one pending timer, and no other kind of event changes in number |
| Hosts.TimerStartedExpiry | StopAndWait/src/main/java/transport/NetworkHost.java:37-45 | starting a timer that is already running keeps its old expiry; otherwise the timer fires at now + increment |
| Hosts.TimerStoppedLeavesNone | StopAndWait/src/main/java/transport/NetworkHost.java:49-56 | after stopTimer the entity has no pending timer and nothing else changes in number |
| Hosts.GarbledDetected | StopAndWait/src/main/java/transport/NetworkHost.java:96-101 | overwriting the first character with '=' changes the character sum modulo 2^32 exactly when it changes the payload |
| Hosts.CorruptionDetectedIff | StopAndWait/src/main/java/transport/NetworkHost.java:88-111 | under either checksum scheme, an intact packet with int-range fields is flagged corrupt after the channel exactly when the channel changed it |
| Hosts.ArrivalAfterPending | StopAndWait/src/main/java/transport/NetworkHost.java:113-121 | a new arrival comes at least one time unit after now and strictly after every pending arrival at that host, so the channel never reorders |
| Hosts.NetworkHost.constructor | StopAndWait/src/main/java/transport/NetworkHost.java:27-29 | the host records its entity name |
| Hosts.NetworkHost.StartTimer | StopAndWait/src/main/java/transport/NetworkHost.java:34-46 | the list becomes the started-timer list: a running timer is moved to the end unchanged, otherwise a new one is added |
| Hosts.NetworkHost.StopTimer | StopAndWait/src/main/java/transport/NetworkHost.java:49-56 | the entity's timer, if any, is removed |
| Hosts.NetworkHost.UdtSend | StopAndWait/src/main/java/transport/NetworkHost.java:58-128 | the list gains exactly the arrival the channel draw decides, with the possibly corrupted copy |
| Hosts.NetworkHost.DeliverData | StopAndWait/src/main/java/transport/NetworkHost.java:130-133 | the data is appended to what the host delivered |
| Checksums.Compute | GoBackN/src/main/java/transport/Checksum.java:35-47 | the checksum of the chosen scheme: the complement sum's residue, or the weighted sum's residue (StopAndWait/src/main/java/transport/Checksum.java:12-14), modulo 2^32 |
| Checksums.Corrupt | GoBackN/src/main/java/transport/Checksum.java:55-57 | the corruption verdict of the chosen scheme is that scheme's own verdict |
| Checksums.MakePacket | GoBackN/src/transport/Sender.java:166-169 | a data packet carries that number, ACK 0 and the payload, and passes the corruption check |
| Checksums.MakeAck | GoBackN/src/main/java/transport/Receiver.java:37-38 | an ACK has seqnum 0, that acknum and an empty payload, and passes the corruption check |
| Checksums.SeqnumChangeDetected | GoBackN/src/main/java/transport/Checksum.java:55-57 | under either scheme, changing the seqnum of an intact packet is detected exactly when the change is not a multiple of 2^32 |
| Checksums.AcknumChangeDetected | GoBackN/src/main/java/transport/Checksum.java:55-57 | the same for the acknum |
| Checksums.PayloadChangeDetected | GoBackN/src/main/java/transport/Checksum.java:55-57 | the same for the payload, measured by its character sum |
| SumChecksum.Checksum | GoBackN/src/main/java/transport/Checksum.java:35-47 | the checksum is the int that, added to seq, ack and the characters (none for null), gives -1 modulo 2^32 |
| SumChecksum.Corrupt | GoBackN/src/main/java/transport/Checksum.java:55-57 | a packet is intact exactly when its checksum is an int and checksum + 1 + seq + ack + characters is a multiple of 2^32 |
| SumChecksum.Compute | GoBackN/src/main/java/transport/Checksum.java:35-47 | the loop computes the complement of the wrapped sum of seq, ack and the characters (no characters for null) |
| SumChecksum.AckChecksum | GoBackN/src/main/java/transport/Checksum.java:22-24 | the two-argument form is the checksum of an empty-payload packet |
| SumChecksum.NullPayloadIsEmptyPayload | GoBackN/src/main/java/transport/Checksum.java:38 | a null payload and an empty one give the same checksum |
| SumChecksum.Symmetric | GoBackN/src/main/java/transport/Checksum.java:36 | swapping seq and ack does not change the checksum |
| SumChecksum.ChecksumEqualIff | GoBackN/src/main/java/transport/Checksum.java:35-47 | two checksums are equal exactly when the field sums are congruent modulo 2^32 |
| SumChecksum.StampedIsIntact | GoBackN/src/main/java/transport/Checksum.java:55-57 | a packet stamped with its own checksum is not corrupt |
| SumChecksum.SeqnumChangeDetected | GoBackN/src/main/java/transport/Checksum.java:55-57 | a seqnum change is detected exactly when it is not a multiple of 2^32 |
| SumChecksum.AcknumChangeDetected | GoBackN/src/main/java/transport/Checksum.java:55-57 | an acknum change is detected exactly when it is not a multiple of 2^32 |
| SumChecksum.PayloadChangeDetected | GoBackN/src/main/java/transport/Checksum.java:55-57 | a payload change is detected exactly when the character sum changes modulo 2^32 |
| WeightedChecksum.Checksum | StopAndWait/src/main/java/transport/Checksum.java:12-14 | the checksum is congruent to 33·seq + 57·ack + characters (none for null) modulo 2^32 |
| WeightedChecksum.Corrupt | StopAndWait/src/main/java/transport/Checksum.java:16-18 | a packet is intact exactly when its checksum is an int congruent to 33·seq + 57·ack + characters modulo 2^32 |
| WeightedChecksum.AckChecksum | StopAndWait/src/main/java/transport/Checksum.java:8-10 | the two-argument form is the checksum of an empty-payload packet |
| WeightedChecksum.ChecksumEqualIff | StopAndWait/src/main/java/transport/Checksum.java:12-14 | two checksums are equal exactly when the weighted sums are congruent modulo 2^32 |
| WeightedChecksum.OddWeightCancels | StopAndWait/src/main/java/transport/Checksum.java:13 | multiplying by the odd weight 33 or 57 neither creates nor hides a nonzero difference modulo 2^32 |
| WeightedChecksum.StampedIsIntact | StopAndWait/src/main/java/transport/Checksum.java:16-18 | a packet stamped with its own checksum is not corrupt |
| WeightedChecksum.SeqnumChangeDetected | StopAndWait/src/main/java/transport/Checksum.java:16-18 | a seqnum change is detected exactly when it is not a multiple of 2^32 |
| WeightedChecksum.AcknumChangeDetected | StopAndWait/src/main/java/transport/Checksum.java:16-18 | an acknum change is detected exactly when it is not a multiple of 2^32 |
| WeightedChecksum.PayloadChangeDetected | StopAndWait/src/main/java/transport/Checksum.java:16-18 | a payload change is detected exactly when the character sum changes modulo 2^32 |
| WeightedChecksum.NotSymmetric | StopAndWait/src/main/java/transport/Checksum.java:13 | unlike the complement sum, swapping seq and ack changes the checksum |
| AlternatingBit.Flip | StopAndWait/src/main/java/transport/Sender.java:172 | `(b + 1) % 2` maps each bit to the other bit |
| HandlerSender.HandleOutput | StopAndWait/src/main/java/transport/Sender.java:105-118 | waiting for a message: send a stamped packet with the current bit, start the timer, and wait for its ACK; while waiting for an ACK the message is ignored |
| HandlerSender.HandleInput | StopAndWait/src/main/java/transport/Sender.java:161-173 | an intact ACK for the current bit stops the timer and flips the bit; anything else changes nothing |
| HandlerSender.HandleTimerInterrupt | StopAndWait/src/main/java/transport/Sender.java:183-187 | while waiting for an ACK: resend the stored packet and restart the timer; otherwise nothing |
| HandlerSender.HandlersPreserveValid | src/main/java/transport/Sender.java:99-143 | every handler keeps the sender's state well formed: a bit, and a stored packet that is intact and carries that bit |
| HandlerSender.BitFlipsOnlyOnAck | src/main/java/transport/Sender.java:130-136 | the bit changes exactly on an accepted ACK, never on output or timeout |
| HandlerSender.Sender.constructor | StopAndWait/src/main/java/transport/Sender.java:35-37 | a new sender waits for an application message with bit 0 |
| HandlerSender.Sender.Init | src/main/java/transport/Sender.java:29-31 | `init` resets to waiting for an application message with bit 0 |
| HandlerSender.Sender.Output | StopAndWait/src/main/java/transport/Sender.java:47-49 | the new state and actions are those of the current state's `output` |
| HandlerSender.Sender.Input | src/main/java/transport/Sender.java:52-54 | the new state and actions are those of the current state's `input` |
| HandlerSender.Sender.TimerInterrupt | StopAndWait/src/main/java/transport/Sender.java:69-71 | the new state and actions are those of the current state's `timerInterrupt` |
| EnumSender.Sender.constructor | StopAndWait/src/transport/Sender.java:47-51 | starts waiting for a message with bit 0 and no stored packet, the same start as the handler-object sender |
| EnumSender.Sender.Output | StopAndWait/src/transport/Sender.java:61-79 | outside WAIT_MSG the message is dropped; otherwise the packet is stored, sent and timed; the step is exactly the handler-object sender's |
| EnumSender.Sender.Input | StopAndWait/src/transport/Sender.java:89-106 | only in WAIT_ACK, an intact ACK for the bit stops the timer and flips the bit; the step is exactly the handler-object sender's |
| EnumSender.Sender.TimerInterrupt | StopAndWait/src/transport/Sender.java:113-122 | in WAIT_ACK the stored packet is resent and the timer restarted; the step is exactly the handler-object sender's |
| OtherBitReceiver.HandleInput | StopAndWait/src/main/java/transport/Receiver.java:80-102 | the awaited intact packet is delivered and acknowledged and the bit flips; anything else gets the ACK for the other bit; the reply is always an intact ACK |
| OtherBitReceiver.ReplyAcceptedIffDelivered | StopAndWait/src/main/java/transport/Receiver.java:80-102 | with sender and receiver on the same bit, the sender accepts the receiver's reply exactly when the receiver delivered the packet |
| OtherBitReceiver.Receiver.constructor | StopAndWait/src/main/java/transport/Receiver.java:31-33 | a new receiver waits for bit 0 |
| OtherBitReceiver.Receiver.Init | StopAndWait/src/main/java/transport/Receiver.java:31-33 | `init` resets to waiting for bit 0 |
| OtherBitReceiver.Receiver.Input | StopAndWait/src/main/java/transport/Receiver.java:43-45 | the new state and actions are those of the current state's `input` |
| EchoReceiver.HandleInput | src/main/java/transport/Receiver.java:30-43 | the awaited intact packet is delivered and acknowledged and the bit flips; anything else gets an ACK echoing the received seqnum |
| EchoReceiver.GarbledPacketAcknowledged | src/main/java/transport/Receiver.java:31-35 | a packet whose payload was garbled is not delivered, yet the echoed ACK makes the sender move on |
| EchoReceiver.Receiver.constructor | src/main/java/transport/Receiver.java:12-14 | a new receiver waits for bit 0 |
| EchoReceiver.Receiver.Input | src/main/java/transport/Receiver.java:17-19 | the new state and actions are those of the current state's `input` |
| GoBackNReceiver.Receiver.constructor | GoBackN/src/main/java/transport/Receiver.java:22-25 | as written: expects 0 and holds ACK 0, which acknowledges a packet not yet received |
| GoBackNReceiver.Receiver.Intended | GoBackN/src/main/java/transport/Receiver.java:22-25 | expects 0 and holds ACK -1, so the stored ACK always acknowledges only delivered packets |
| GoBackNReceiver.Receiver.Input | GoBackN/src/main/java/transport/Receiver.java:28-47 | the intact packet with the expected number is delivered and acknowledged and the expected number goes up by one; anything else resends the last ACK unchanged; the ACK always passes the check |
| GoBackNReceiver.InitialAckSkipsPacketZero | GoBackN/src/main/java/transport/Receiver.java:24 | the initial ACK passes the sender's check and moves its base from 0 to 1 |
| GoBackNReceiver.IntendedInitialAckKeepsBase | GoBackN/src/main/java/transport/Receiver.java:24 | ACK -1 passes the check and leaves the sender's base at 0 |
| GoBackN.Slot | GoBackN/src/transport/Sender.java:153-157 | a slot index is within the buffer |
| GoBackN.SlotsDistinct | GoBackN/src/transport/Sender.java:153-157 | sequence numbers less than one buffer length apart occupy different slots |
| GoBackN.SlotPeriodic | GoBackN/src/transport/Sender.java:153-157 | numbers one buffer length apart share a slot |
| GoBackN.PacketFor | GoBackN/src/transport/Sender.java:166-169 | the packet for number s carries s, ACK 0 and the s-th accepted message, and is intact |
| GoBackN.Resends | GoBackN/src/transport/Sender.java:142-144 | sends for the numbers in [lo, hi): one per number |
| GoBackN.ResendsInOrder | GoBackN/src/transport/Sender.java:142-144 | the i-th of those sends is the packet for lo + i |
| GoBackN.AdvancePreserves | GoBackN/src/transport/Sender.java:118-125 | raising base keeps every outstanding slot holding its packet |
| GoBackN.OverflowingIff | GoBackN/src/transport/Sender.java:76 | the test `index(next) == index(base - 1)` holds exactly when buffer-length - 1 messages are outstanding |
| GoBackN.StorePreserves | GoBackN/src/transport/Sender.java:82 | storing the next message in its slot keeps the buffer invariant with one more message, and the buffer cannot hold more than it should |
| GoBackN.SlideSendsNothing | GoBackN/src/transport/Sender.java:121 | as written, the slide sends nothing: slot(b + 8) never holds a packet numbered b |
| GoBackN.SlideStepEntrant | GoBackN/src/transport/Sender.java:119-123 | with the test `seqnum == b + 8`, step b sends the stored packet b + 8 when it is buffered |
| GoBackN.SlideSendsEntrants | GoBackN/src/transport/Sender.java:118-125 | with that test, sliding from base to stop sends, in order, the packets numbered from base + 8 to min(stop + 8, next) |
| GoBackN.SlideAboveStep | GoBackN/src/main/java/transport/Sender.java:91-97 | step b sends the stored packet b + 8 exactly when it is buffered and its number exceeds newBase |
| GoBackN.SlideSendsAboveEntrants | GoBackN/src/main/java/transport/Sender.java:90-100 | sliding sends, in order, the packets from max(base + 8, newBase + 1) to min(stop + 8, next) |
| GoBackN.SlideAboveOutcome | GoBackN/src/main/java/transport/Sender.java:90-100 | the whole slide to max(base, newBase) keeps the buffer invariant and sends exactly that range |
| GoBackNDroppingSender.Sender.constructor | GoBackN/src/transport/Sender.java:58-62 | base and next are 1, all slots are empty, nothing is accepted |
| GoBackNDroppingSender.Sender.Index | GoBackN/src/transport/Sender.java:153-157 | the slot of any sequence number, negative ones included |
| GoBackNDroppingSender.Sender.MakePacket | GoBackN/src/transport/Sender.java:166-169 | a stamped data packet with ACK 0 |
| GoBackNDroppingSender.Sender.Output | GoBackN/src/transport/Sender.java:73-93 | when full, the message is dropped and nothing changes; otherwise it is stored in its slot and accepted, sent if inside the window, and the timer started if it is the base |
| GoBackNDroppingSender.Sender.Input | GoBackN/src/transport/Sender.java:102-132 | as written: a corrupt or old ACK is ignored; a new one moves base to ack + 1, stops the timer and restarts it while packets are outstanding, and sends nothing else |
| GoBackNDroppingSender.Sender.Slide | GoBackN/src/transport/Sender.java:118-125 | the slide loop sends exactly the buffer function's packets and changes only base |
| GoBackNDroppingSender.Sender.InputIntended | GoBackN/src/transport/Sender.java:102-132 | corrected: as `input`, and the packets entering the window are also sent, in order |
| GoBackNDroppingSender.Sender.SlideIntended | GoBackN/src/transport/Sender.java:118-125 | the corrected slide sends the packets from old base + 8 to min(newBase + 8, next) |
| GoBackNDroppingSender.Sender.TimerInterrupt | GoBackN/src/transport/Sender.java:139-145 | restarts the timer and resends exactly the packets numbered from base to min(next, base + 8), in order |
| GoBackNSender.Sender.constructor | GoBackN/src/main/java/transport/Sender.java:52-56 | base and next are 0, all slots are empty, nothing is accepted |
| GoBackNSender.Sender.Index | GoBackN/src/main/java/transport/Sender.java:125-129 | the slot of any sequence number, negative ones included |
| GoBackNSender.Sender.MakePacket | GoBackN/src/main/java/transport/Sender.java:138-141 | a stamped data packet with ACK 0 |
| GoBackNSender.Sender.Output | GoBackN/src/main/java/transport/Sender.java:59-78 | fails with buffer overflow exactly when full, changing nothing; otherwise stores, sends and times as in the dropping sender |
| GoBackNSender.Sender.Input | GoBackN/src/main/java/transport/Sender.java:81-108 | a corrupt ACK is ignored; an intact one raises base to at least ack + 1, sends the buffered packets above ack + 1 that enter the window, and stops the timer if nothing is outstanding |
| GoBackNSender.Sender.Advance | GoBackN/src/main/java/transport/Sender.java:86-100 | the slide keeps the buffer invariant and sends, in order, the packets from max(base + 8, newBase + 1) to min(new base + 8, next) |
| GoBackNSender.Sender.Slide | GoBackN/src/main/java/transport/Sender.java:90-100 | the slide loop sends exactly the buffer function's packets and changes only base |
| GoBackNSender.Sender.TimerInterrupt | GoBackN/src/main/java/transport/Sender.java:111-117 | restarts the timer and resends exactly the packets numbered from base to min(next, base + 8), in order |
| Schedules.RemoveAtSound | src/main/java/transport/EventList.java:43-44 | removing any event keeps one timer per host, packets on arrivals and per-host arrival order |
| Schedules.RemoveEarliestSound | src/main/java/transport/EventList.java:27-47 | taking the earliest event keeps the list properties; nothing left is earlier, and one fewer application message is pending exactly when one was taken |
| Schedules.AppendOtherSound | src/main/java/transport/NetworkSimulator.java:163-166 | scheduling an application message keeps the list properties and adds one pending message |
| Schedules.ScheduledSound | StopAndWait/src/main/java/transport/NetworkHost.java:113-127 | what udtSend schedules keeps the list properties and the application messages |
| Schedules.AppendNonArrivalTimely | StopAndWait/src/main/java/transport/NetworkHost.java:43-44 | a new timer not in the past keeps the time properties |
| Schedules.TimerStartedCounts | StopAndWait/src/main/java/transport/NetworkHost.java:37-45 | startTimer keeps at most one timer per host and the application messages |
| Schedules.TimerStartedSound | StopAndWait/src/main/java/transport/NetworkHost.java:37-45 | startTimer with a non-negative length keeps every list property |
| Schedules.WithoutTimerSound | StopAndWait/src/main/java/transport/NetworkHost.java:49-56 | stopTimer keeps every list property |
| Schedules.PerformedSound | StopAndWait/src/main/java/transport/NetworkHost.java:34-133 | every service call a handler makes keeps every list property and the application messages |
| Simulator.Letter | src/main/java/transport/NetworkSimulator.java:130 | message k's character is the ((k - 1) mod 26)-th lower-case letter |
| Simulator.MessagesCycle | src/main/java/transport/NetworkSimulator.java:127-133 | messages repeat every 26, consecutive messages differ, and all are lower-case letters |
| Simulator.AppDelay | src/main/java/transport/NetworkSimulator.java:160 | the wait between messages lies in [0.5·avg, 1.5·avg) |
| Simulator.PerformedAllSound | src/main/java/transport/NetworkSimulator.java:105-125 | carrying out a handler's actions keeps the list properties and the pending application messages |
| Simulator.TakeEarliestClocked | src/main/java/transport/NetworkSimulator.java:89-102 | taking the earliest event never moves the clock back, and events are handled in time order |
| Simulator.NetworkSimulator.constructor | src/main/java/transport/NetworkSimulator.java:53-71 | no message yet, clock 0, empty list, new hosts A and B, a sender waiting for bit 0 and a receiver expecting bit 0 (the other-bit receiver, see Left out) |
| Simulator.NetworkSimulator.GenerateNextArrival | src/main/java/transport/NetworkSimulator.java:155-174 | appends one application message due after the random wait and counts it |
| Simulator.NetworkSimulator.MakeMessage | src/main/java/transport/NetworkSimulator.java:127-133 | the message is MAXDATASIZE copies of the counter's letter |
| Hosts.NetworkHost.PerformAll | src/main/java/transport/NetworkSimulator.java:105-125 | the handler's actions are carried out in order, one channel draw each, and delivered payloads reach the host in order |
| Simulator.NetworkSimulator.Dispatch | src/main/java/transport/NetworkSimulator.java:105-149 | a timer interrupt at A runs the sender's timer handler, a packet at A the sender's input handler and a packet at B the receiver's; only that handler's entity changes state, its actions are carried out at its host and extend only that host's deliveries; a timer or packet for any other entity changes nothing; an application event is handled as in `DispatchApp`; the invariant is kept throughout |
| Simulator.NetworkSimulator.DispatchApp | src/main/java/transport/NetworkSimulator.java:126-146 | the sender's output handler runs on the message for the current counter, which is appended to the offered messages; its actions are carried out at A; then the next application message is appended exactly while fewer than maxMessages exist |
| Simulator.NetworkSimulator.OfferMessage | src/main/java/transport/NetworkSimulator.java:126-136 | the message for the current counter is offered: appended to the offered messages, handed to the sender's output handler, and the handler's actions carried out at A |
| Simulator.NetworkSimulator.ScheduleNext | src/main/java/transport/NetworkSimulator.java:138-144 | the next application message is appended, and counted, exactly while fewer than maxMessages exist; otherwise nothing changes |
| Simulator.NetworkSimulator.Step | src/main/java/transport/NetworkSimulator.java:87-103 | the run ends exactly when the list was empty; otherwise the clock is set to the earliest pending event's time and that event is the one dispatched |
| Simulator.NetworkSimulator.RunSimulator | src/main/java/transport/NetworkSimulator.java:75-152 | when the list empties, exactly max(1, maxMessages) messages were generated and offered in order; with a non-negative average delay the clock never goes back |

## Left out

- Randomness: `Random` and its seed are not modelled. Every draw is an oracle parameter:
  - A `ChannelDraw` covers one `udtSend`: loss, the kind of corruption with the replacement int, and the non-negative jitter `|5g + 9|` of the Gaussian.
  - The application delay is a `Unit` value in [0, 1) for `nextDouble()`.
  - The loss and corruption probabilities are therefore not modelled.
- Floating point: the clock and event times are Dafny `real`s, not IEEE doubles.
- Console and log output (`System.out`, `Logger`) is not modelled.
- `toString` methods are not modelled.
- Getters of `NetworkSimulator` are not modelled, because the host services take the list and the clock as arguments instead.
- Singleton: `getInstance()` is replaced by passing the event list and the clock explicitly.
- Assignment.java (command-line parsing) is not part of this model.
- Message.java is not part of this model: a message is its string.
- Simulator.NetworkSimulator.RunSimulator: bounded by a fuel count. The Java `while (true)` need not terminate when every packet is lost, so `finished` says whether the list emptied within the fuel.
- Simulator.NetworkSimulator.RunSimulator: requires a freshly initialised simulator (`nMsgSim == 0`), because the Java method is only called once after `initSimulator`.
- Simulator.NetworkSimulator.constructor: the source builds src/main/java/transport/Receiver.java there (NetworkSimulator.java:70), the receiver that echoes the received sequence number. The model builds `OtherBitReceiver.Receiver` instead, because the echo receiver's reply to a garbled packet loses a message (Findings, second row) and the corrected member is the one the simulator runs. The echo receiver is modelled on its own as `EchoReceiver`, and its bug is shown there.
- Simulator.NetworkSimulator.constructor: the checksum class of `src/main` is not part of this model, so the simulator runs under the weighted scheme of StopAndWait/src/main/java/transport/Checksum.java.
- Packets.CharSum and Hosts.Garbled: a Dafny `char` is a Unicode scalar value, while a Java `char` is a UTF-16 code unit. A payload with a character outside the Basic Multilingual Plane therefore has a smaller length and a different character sum in the model than in Java (for "\U{1F600}", length 1 and 128512 in the model; 2 and 112189 in Java). This changes `Garbled`'s `< 2` test and the checksum sums. The simulator's own messages are all lower-case letters 'a' to 'z', where the two agree.
- Events: Event.java's setters are never called in the core, so an event is an immutable value.
- Events: the packet of an event is a value, so the copy `udtSend` schedules cannot alias the sender's stored packet.
- Handler before `init`: a handler's state is null before `init`. The models start in the state `init` establishes.
- Sequence numbers, `base` and `nextSeqNum` are unbounded integers. The 32-bit wrap of `++nextSeqNum` after 2^31 messages is not modelled. The checksum arithmetic does wrap, as Java does.
- GoBackNDroppingSender.Sender.Input: as in the source, the ACK is not checked against nextSeqNum. An ACK at or beyond nextSeqNum moves base past nextSeqNum and restarts the timer with nothing outstanding, so `base <= nextSeqNum` is only promised for ACKs below nextSeqNum (the buffer invariant holds either way).
- GoBackNSender.Sender.Input: the `startTimer` inside the slide loop (the test `seqnum == newBase` after `seqnum > newBase`) can never run, so no action models it.
- GoBackNSender.Sender.Input: the timer is not restarted when the window moves but packets remain, exactly as in the source.
- `list.remove(object)`: modelled as removal at the found index. The two agree because the list never holds the same event object twice.
- Hosts.NetworkHost.Perform has no counterpart in the source. It is the glue that carries out one returned action.
- Simulator.NetworkSimulator.Carry has no counterpart in the source. It is the glue that hands a handler's returned actions to that handler's host and keeps the loop invariant.

## Findings

| source | as written | input that shows it | evidently intended | confidence | as-written member | corrected member |
|---|---|---|---|---|---|---|
| GoBackN/src/main/java/transport/Receiver.java:22-25 | `init` stores ACK `expectedSeqNum` = 0 as the reply to send for a bad packet | the first data packet from the sender arrives corrupted: the receiver replies with ACK 0, the sender takes packet 0 as acknowledged and moves base to 1, and packet 0 is never resent | the initial ACK should acknowledge nothing, i.e. carry `expectedSeqNum - 1` = -1 | not executed | GoBackNReceiver.Receiver.constructor, GoBackNReceiver.InitialAckSkipsPacketZero | GoBackNReceiver.Receiver.Intended, GoBackNReceiver.IntendedInitialAckKeepsBase |
| src/main/java/transport/Receiver.java:31-35 | a corrupt or unexpected packet is answered with an ACK for the packet's own (possibly corrupted) sequence number | packet 0 with payload "aa" whose payload is garbled to "=a": the ACK for 0 comes back intact, the sender flips to bit 1, and "aa" is never delivered | answer with the ACK for the other bit, as StopAndWait/src/main/java/transport/Receiver.java:83-89 does | not executed | EchoReceiver.HandleInput, EchoReceiver.GarbledPacketAcknowledged | OtherBitReceiver.HandleInput, OtherBitReceiver.ReplyAcceptedIffDelivered |
| GoBackN/src/transport/Sender.java:121 | a buffered packet is sent on a slide only if the slot of `base + 8` holds the packet numbered `base` | any run with more than 8 outstanding messages: slot(b + 8) only ever holds a packet whose number is congruent to b + 8 modulo 59, never b, so packets that enter the window are not sent until the next timeout | test the number that enters the window, `seqnum == base + WINDOW_SIZE` | not executed | GoBackNDroppingSender.Sender.Input, GoBackN.SlideSendsNothing | GoBackNDroppingSender.Sender.InputIntended, GoBackN.SlideSendsEntrants |
