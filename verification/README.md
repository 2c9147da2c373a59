# A verified model of a user-space TCP

This project models the TCP of `libsponge` in Dafny and proves what it promises: sequence-number
arithmetic, the ring-buffer byte stream, reassembly, the receiver, the sending window with its
retransmission buffer, the sender, the two halves joined by a network that loses, repeats and reorders,
the life of a whole endpoint, and the segment codec with its checksum.

`dafny verify dfyconfig.toml` checks everything.

## How it is built

Every component has a value (a datatype with functions) that says what each call does, and, where the
program updates an object in place, a class whose methods carry the program's own loops and branches and
are proved to do exactly that to the value they represent (`Model() == old(Model()).F(...)`). The theorems
are about the values, so they hold of the objects.

| file | component |
|---|---|
| `Words.dfy`, `Segments.dfy` | machine words and their truncations; headers and segments |
| `WrappingIntegers.dfy` | 64-bit absolute numbers and the 32-bit numbers they travel as |
| `ByteStreams.dfy` | the bounded FIFO and the ring buffer that implements it |
| `Reassembly.dfy`, `ReassemblyRuns.dfy` | the reassembler; longest prefix, order independence, exact end |
| `Receiving.dfy`, `Carriage.dfy`, `Acknowledging.dfy` | the receiver; what a segment carries; when acknowledgments are safe |
| `SendingWindows.dfy`, `Tiling.dfy` | the window and its buffer; the buffer tiles what is unacknowledged |
| `Sending.dfy`, `SenderInvariants.dfy`, `Transmission.dfy`, `SenderRuns.dfy` | the sender; what every call keeps; what goes on the wire; theorems over every run |
| `RetransmissionTimer.dfy` | one timer per segment refines the single timer of section 5 of RFC 6298 |
| `Protocol.dfy`, `Delivery.dfy`, `Alignment.dfy`, `Pacing.dfy` | sender, network and receiver as a step relation; end-to-end theorems |
| `Connections.dfy`, `Lifecycle.dfy`, `Outflow.dfy`, `Endpoints.dfy` | the endpoint; its life over every sequence of calls; what leaves it and when; the object |
| `Stranding.dfy`, `Naming.dfy`, `Silence.dfy` | an endpoint whose peer's FIN overtakes data; states without a name; an endpoint that hears nothing |
| `Handshake.dfy` | two endpoints opening and closing |
| `Wire.dfy`, `Ends.dfy`, `Duplex.dfy`, `Completion.dfy` | what an endpoint may send; what every call keeps; two endpoints exchanging data both ways; what the end means |
| `Checksum.dfy`, `Codec.dfy` | the Internet checksum, the parser, headers and segments as bytes |

## The main results

* **End to end.** In every state of every run of two whole endpoints that use fewer than 2^31 sequence numbers
  each, whatever the network loses, repeats or reorders and whatever is called, on endpoints that have been
  reset too, the bytes handed to each application are a prefix of those written by the other
  (`Duplex.BothSinksArePrefixes`). If moreover deliveries fit and no bare FIN overtakes data, an endpoint in
  TIME_WAIT or CLOSED means that both applications have everything and know it (`Completion.ClosedMeansComplete`).
  For a sender and a receiver by themselves: if acknowledgments advertise an open window and never take back what
  has been sent, and no bare FIN overtakes data, then every delivery fits, the acknowledgment number is exact,
  and a sender whose FIN is acknowledged has delivered everything (`Pacing.OrderlyRunDeliversAll`).
* **Sender.** Every segment ever sent carries the part of the stream that its number names, first
  transmissions tile the numbers used and concatenate to the bytes consumed, and a FIN takes a number at most
  once (`SenderRuns.RunSendsTheStream`); the retransmission buffer tiles what is unacknowledged, and the window
  goes wrong exactly when it is handed an acknowledgment it cannot take (`SenderRuns.RunTiles`); with a right
  edge that never moves left the window is never overrun (`SenderRuns.SteadyRunStaysInWindow`); whatever is
  acknowledged, the timers behave as one (`RetransmissionTimer.RunRefinesOneTimer`).
* **Receiver.** Reassembly depends only on which substrings have arrived, unless an end marker came empty
  (`ReassemblyRuns.OrderDoesNotMatter`).
* **Endpoint.** Whatever any peer sends, RESET and inactivity are for ever and an active endpoint's backoff is
  bounded (`Lifecycle.ActiveIsBounded`); CLOSED is left only by a RST, TIME_WAIT lasts exactly ten initial
  timeouts (`Lifecycle`); a silent peer forces RESET within 511 initial timeouts and eight ticks
  (`Silence.SilentPeerInEveryRun`); what runs out is sent again, and what arrives is answered, before the call
  returns (`Outflow.TickResends`, `Outflow.ArrivalsAreAnswered`); the segments that take an endpoint out of all
  named states are known exactly
  (`Naming.NameIsLostExactly`); two endpoints go through the states of all four of the program's own diagrams,
  after any amount of data (`Handshake`).
* **Codec.** Serializing and parsing is the identity for every payload, exactly when the data offset fits its
  four bits (`Codec.SegmentRoundTrip`); a segment with any one byte changed is refused
  (`Codec.OneChangedByteIsRefused`).

## Where the program falls short of its documentation

Each of these is a theorem with the exact condition, or with every state in which it happens.

* `unwrap` is documented to return the number nearest to the checkpoint. It does so if and only if it is not
  in the one branch that refuses to step down from epoch 1 (`WrappingIntegers.UnwrapIsNearest`,
  `UnwrapMissesNearest`). The window therefore searches in vain if and only if an acknowledgment points into or
  just past an outstanding segment that starts before 2^32 while the next number is in [2^32, 2^33)
  (`Tiling.AckFaultsExactly`), and a run in which nothing is lost gets there (`SenderRuns.RunReachesFault`).
* An end marker is handled exactly, whatever follows, if and only if the end of the stream is in reach when it
  arrives (`ReassemblyRuns.EndIsExact`); an empty end marker that overtakes data loses it
  (`ReassemblyRuns.EarlyEmptyEndLosesData`, `Acknowledging.BareFinExactlyWhenNotEarly`).
* Data that arrives in order is acknowledged safely if and only if all of it fits
  (`Acknowledging.AckSafeExactlyWhenItFits`); in particular the byte of a zero-window probe is acknowledged and
  thrown away (`Acknowledging.ZeroWindowProbeIsLost`, `FullReceiverLosesProbe`).
* Flow control holds after an acknowledgment if and only if its right edge covers what was sent
  (`SenderRuns.FlowControlExact`); otherwise the unsigned subtraction wraps and the sender empties its stream
  into the network (`SenderRuns.ShrunkWindowIsOverrun` is such a run).
* An acknowledgment of the bare SYN number sets off as many FINs as the window has room for; it is at most one
  if and only if the stream is open or the window is no larger than the SYN, what is buffered and one FIN
  (`SenderRuns.BareAckFinsExactly`, `BareAckRepeatsFin`).
* The timers are one timer if and only if no timeout is truncated to 32 bits, which the seventeenth expiry in a
  row can do (`RetransmissionTimer.TimersRefineOneExactly`, `SeventeenthTimeoutLosesBits`); an active endpoint
  has given up before that.
* A segment takes an endpoint to a state that has no name if and only if the inbound stream ends before
  ESTABLISHED, or by data in ESTABLISHED after its FIN came before, unless the endpoint's own FIN is out by then;
  or a FIN in ESTABLISHED comes early, or finds the endpoint's own FIN acknowledged (`Naming.NameIsLostExactly`).
  It happens right after a handshake (`Handshake.StrandedAfterHandshake`), or when the last ACK of one is lost
  (`Handshake.FinOvertakesAck`). Until it is reset, such an endpoint stays there, its application gets nothing
  more and nothing that it sent is acknowledged, whatever is called or arrives, though keep-alive probes are
  answered; only one that is like CLOSE_WAIT is taken on by its own FIN (`Naming.LostForEver`,
  `Silence.LostGivesUp`).
* Half-closed connections do not work: in CLOSE_WAIT plain acknowledgments are ignored, and in FIN_WAIT_2 plain
  data (`Silence.HalfClosedIsDeaf`, `Silence.HalfClosedGivesUp`).
* An endpoint that has been reset goes on sending if it is called, as the event loop can do after a RST: once its
  stream ends, all that is left of the window becomes FINs (`Wire.ResetFloodsWithFins`,
  `Handshake.ResetEndpointFloods`).
* A repeated SYN takes the acknowledgment number back if and only if the stream is empty and has ended
  (`Alignment.RepeatedSynExactly`).
* Counting the unassembled bytes reads past the vector if and only if a push was cut short
  (`ReassemblyRuns.CountingStraysExactly`).
* The header parser reports a data offset below five, but the segment parser does not pass that on, if and only
  if the checksum is good and twenty bytes are there (`Codec.ShortHeaderIsAcceptedExactly`, `ZerosAreAccepted`).

## Model

| member | source | states |
|---|---|---|
| `WrappingIntegers.UnwrapIsNearest` | libsponge/wrapping_integers.cc:32-49 | the result wraps to `n` and is the nearest 64-bit number that does, if and only if the checkpoint is not in epoch 1 with the nearest one below it |
| `WrappingIntegers.UnwrapInvertsWrap` | libsponge/wrapping_integers.cc:16-49 | a number within 2^31 of the checkpoint survives wrap and unwrap, if and only if it is not in epoch 0 while the checkpoint is in epoch 1 |
| `WrappingIntegers.UnwrapMissesNearest` | libsponge/wrapping_integers.cc:43-45 | the input on which the documented promise fails |
| `ByteStreams.FifoConservation` | libsponge/byte_stream.cc:14-94 | over every sequence of calls, what was buffered plus what was accepted is what was read plus what is buffered, in order |
| `ByteStreams.RunIsFifo` | libsponge/byte_stream.cc:14-94 | in every run each call is a step of a bounded FIFO: a write appends all of the data unless that fills the stream, a read takes all it asks for unless that empties it, the end only marks |
| `ByteStreams.ByteStream.Write` | libsponge/byte_stream.cc:14-30 | appends a beginning of the data, all of it unless the ring is then full, none after the end, and returns how much |
| `ByteStreams.ByteStream.PeekOutput` | libsponge/byte_stream.cc:32-46 | returns the oldest buffered bytes, at most `len`, going round the ring |
| `ByteStreams.ByteStream.PopOutput` | libsponge/byte_stream.cc:48-54 | removes the oldest bytes, at most as many as there are |
| `ByteStreams.ByteStream.Read` | libsponge/byte_stream.cc:56-62 | peek and pop together |
| `ByteStreams.ByteStream.BufferSize` | libsponge/byte_stream.cc:81-84 | the index arithmetic gives bytes written minus bytes read |
| `ByteStreams.ByteStream.BufferFull` | libsponge/byte_stream.cc:69-72 | full exactly when `capacity` bytes are buffered |
| `ByteStreams.ByteStream.RemainingCapacity` | libsponge/byte_stream.cc:94 | size and remaining capacity add up to the capacity |
| `ByteStreams.ByteStream.EndInput` | libsponge/byte_stream.cc:74-77 | only the end flag changes |
| `Reassembly.StreamReassembler.PushSubstring` | libsponge/stream_reassembler.cc:15-34 | stores what fits below bytes read plus capacity, raises the high-water mark, hands on the bytes up to the first gap and ends the output if the end is flagged and nothing waits; the 64-bit wrap-around of the index and the break out of the loop are the program's |
| `Reassembly.StreamReassembler.Store` | libsponge/stream_reassembler.cc:21-31 | stores the bytes that fit and raises the high-water mark for every byte looked at |
| `Reassembly.StreamReassembler.UpdateOutput` | libsponge/stream_reassembler.cc:60-79 | hands on everything up to the first missing byte and ends the output when the end is flagged and nothing is waiting |
| `Reassembly.StreamReassembler.UpdateSize` | libsponge/stream_reassembler.cc:53-58 | the vectors reach as far as bytes read plus capacity |
| `Reassembly.StreamReassembler.UnassembledBytes` | libsponge/stream_reassembler.cc:39-49 | the number of indices stored but not assembled, each counted once, and whether the loop goes on past the vector |
| `ReassemblyRuns.CountingStraysExactly` | libsponge/stream_reassembler.cc:19-49 | it does if and only if the push before was cut short by the capacity |
| `ReassemblyRuns.RunAgrees` | libsponge/stream_reassembler.cc:15-79 | over every run of pushes that agree with one stream, and reads, everything stored and handed on agrees with it |
| `ReassemblyRuns.AssemblesTheLongestPrefix` | libsponge/stream_reassembler.cc:60-73 | the assembled count is the least index no push has covered, and the output is that prefix |
| `ReassemblyRuns.OrderDoesNotMatter` | libsponge/stream_reassembler.cc:15-79 | the same set of pushes in any order and number, with any reads and capacities, gives the same assembled count; and the same output and end if no end marker came as an empty substring of a non-empty stream |
| `ReassemblyRuns.EndIsExact` | libsponge/stream_reassembler.cc:19-33 | after a flagged push the output ends exactly when every byte has been handed on, for every continuation, if and only if the end is in reach of that push |
| `ReassemblyRuns.PushEndsExactly` | libsponge/stream_reassembler.cc:60-79 | a push ends the output if and only if the end is or has been flagged and every byte below the mark it leaves is held or brought by it |
| `ReassemblyRuns.DriveToSeen` | libsponge/stream_reassembler.cc:75-78 | the continuation that ends the output too early otherwise |
| `ReassemblyRuns.EarlyEmptyEndLosesData` | libsponge/stream_reassembler.cc:19-33 | an empty end marker ahead of missing data ends the output at once and for ever |
| `Receiving.TCPReceiver.SegmentReceived` | libsponge/tcp_receiver.cc:5-47 | a SYN restarts the numbering; without one the segment is ignored; otherwise it is unwrapped near the checkpoint, pushed, and acknowledged |
| `Receiving.TCPReceiver.Acknowledge` | libsponge/tcp_receiver.cc:34-45 | only the acknowledgment number moves: for a segment in order past its length or past all that is assembled, with one more for the end |
| `Receiving.TCPReceiver.WindowSize` | libsponge/tcp_receiver.cc:61-64 | window and buffered bytes add up to the capacity |
| `Acknowledging.WindowIsWhatFits` | libsponge/tcp_receiver.cc:61-64 | data that comes next in line is handed on in full if and only if it is no longer than the window |
| `Acknowledging.ReadingReopensWindow` | libsponge/tcp_receiver.cc:61-64 | reading opens the window by exactly what is taken |
| `Acknowledging.DeliveryLocated` | libsponge/tcp_receiver.cc:21-32 | a segment that carries the stream is taken for the absolute number it has and pushed where its payload belongs |
| `Acknowledging.DeliveryInSync` | libsponge/tcp_receiver.cc:5-47 | delivering any such segment keeps everything stored in agreement with the stream and the acknowledgment number in range |
| `Acknowledging.AckSafeStep` | libsponge/tcp_receiver.cc:34-45 | if the segment fits and a bare FIN is not early, nothing is acknowledged that has not been handed on, and the end is exact |
| `Acknowledging.AckSafeExactlyWhenItFits` | libsponge/tcp_receiver.cc:34-36 | for data in order, the acknowledgment is safe if and only if all of it fits |
| `Acknowledging.WellFedAcksAreSafe` | libsponge/tcp_receiver.cc:5-47 | over every run of fitting segments from any sender, and reads, the acknowledgment number never exceeds one plus the bytes handed on plus one for the end, and the end is exact |
| `Acknowledging.ZeroWindowProbeIsLost` | libsponge/tcp_receiver.cc:34-36 | with a closed window an in-order byte is acknowledged but not kept |
| `Acknowledging.FullReceiverLosesProbe` | libsponge/tcp_receiver.cc:34-36 | the run in which that happens, for every stream |
| `Acknowledging.DeliveryTracks` | libsponge/tcp_receiver.cc:5-47 | delivering a segment keeps the receiver in agreement with the stream within any bound on the acknowledgment number |
| `Acknowledging.SurplusTracks` | libsponge/tcp_receiver.cc:27-45 | so does a FIN beyond the end of the stream |
| `Acknowledging.BareFinExactlyWhenNotEarly` | libsponge/tcp_receiver.cc:27-32 | a FIN without data is safe for every continuation if and only if the byte before it has been seen |
| `SendingWindows.TCPSendingWindow.AddSegment` | libsponge/tcp_sending_window.cc:45-54 | refused exactly when full; otherwise appended, with the next number moved past it |
| `SendingWindows.TCPSendingWindow.AckReceived` | libsponge/tcp_sending_window.cc:55-98 | outside the window nothing changes; repeated, only the window; new, the segments covered entirely are erased from the front and the left edge moves; a fault is recorded where the program throws or indexes past the deque |
| `SendingWindows.OverflowIsCaught` | libsponge/tcp_sending_window.cc:6-25 | where the left edge would carry the right one past 2^64 the program throws |
| `SendingWindows.TCPSendingWindow.SearchBack` | libsponge/tcp_sending_window.cc:72-82 | the last segment that starts before the acknowledgment, or none |
| `SendingWindows.TCPSendingWindow.Tick` | libsponge/tcp_sending_window.cc:100-118 | returns the expired segments in order and ages the others |
| `SendingWindows.TCPSendingWindow.ResetTimer` | libsponge/tcp_sending_window.cc:119-125 | sets every timer to the low 32 bits of the timeout |
| `SendingWindows.TCPSendingWindow.Full` | libsponge/tcp_sending_window.cc:162-175 | closed, or outstanding data with no space left |
| `Tiling.PositionIsExactExactly` | libsponge/tcp_sending_window.cc:78-89 | an outstanding segment is seen where it is, if and only if the buffer does not straddle 2^32 |
| `Tiling.AddedTiles` | libsponge/tcp_sending_window.cc:45-54 | a new segment extends the tiling of the unacknowledged numbers |
| `Tiling.SearchFindsExactly` | libsponge/tcp_sending_window.cc:72-82 | the backward search finds the segment that the acknowledgment points into or just past, if and only if that segment does not start before 2^32 with the next number past it |
| `Tiling.AckedTiles` | libsponge/tcp_sending_window.cc:55-98 | an acknowledgment that the window can take removes exactly the segments it covers entirely, keeps the tiling and does not throw |
| `Tiling.AckFaultsExactly` | libsponge/tcp_sending_window.cc:72-95 | with fewer than 2^31 numbers outstanding the window goes wrong if and only if it cannot take the acknowledgment |
| `Tiling.StraddlingAckFaults` | libsponge/tcp_sending_window.cc:72-82 | an input at which it does |
| `Sending.TCPSender.FillWindow` | libsponge/tcp_sender.cc:39-76 | terminates; the SYN first, then segments of at most 1000 bytes while there is something to send and room, with the FIN on the last one that leaves room for it |
| `Sending.TCPSender.SendNext` | libsponge/tcp_sender.cc:60-74 | one round of the loop: the segment, the bytes taken and the space used up |
| `Sending.TCPSender.AckReceived` | libsponge/tcp_sender.cc:80-96 | window, timeout, timers, counter and zero-window flag after an acknowledgment, and the sending it sets off |
| `Sending.TCPSender.Tick` | libsponge/tcp_sender.cc:99-118 | on expiry the timeout doubles unless probing, all timers restart, the count goes up and one segment is resent |
| `Sending.TCPSender.SendEmptySegment` | libsponge/tcp_sender.cc:125-130 | an empty segment at the next number joins the queue |
| `Sending.SpaceShrinks` | libsponge/tcp_sender.cc:52-75 | every round uses up as much space as the segment is long, even when the space has wrapped |
| `Sending.FullIsRefused` | libsponge/tcp_sending_window.cc:45-50 | a segment for a full window is not sent, and the program throws |
| `SenderInvariants.CanSendOnlyBetween` | libsponge/tcp_sender.cc:52-58 | a sender that may send has had its SYN acknowledged and has not sent its FIN |
| `SenderInvariants.FillExtends` | libsponge/tcp_sender.cc:39-76 | filling takes from the stream, appends to buffer and queue, raises the next number and touches nothing else |
| `SenderInvariants.ReactCore` | libsponge/tcp_sender.cc:39-130 | every regular call keeps: next number = SYN + bytes read + FIN, only the SYN out until something is acknowledged, window between 1 and 2^16 - 1, and what `ReactClocked` keeps |
| `SenderInvariants.ReactClocked` | libsponge/tcp_sender.cc:80-118 | every call, whatever is acknowledged, keeps: timers sorted and below the timeout, timeout = initial doubled at most once per retransmission, empty buffer means no retransmissions |
| `SenderInvariants.ExpiryFromTheFront` | libsponge/tcp_sending_window.cc:100-118 | sorted timers run out from the front, so the first expired segment is the oldest |
| `Transmission.ReactLogged` | libsponge/tcp_sender.cc:39-130 | every call keeps the log of first transmissions: it tiles the numbers used, spells the bytes read, and everything queued is in it or empty |
| `Transmission.TickedLogged` | libsponge/tcp_sender.cc:99-118 | a retransmission repeats a first transmission |
| `SenderRuns.RunConserves` | libsponge/tcp_sender.cc:39-118 | the two invariants above hold in every run |
| `SenderRuns.RunSendsTheStream` | libsponge/tcp_sender.cc:60-69 | in every run each queued segment carries the part of the stream that its number names, first transmissions concatenate to the bytes read, and at most one carries a FIN |
| `SenderRuns.RunTiles` | libsponge/tcp_sending_window.cc:6-98 | in every run with fewer than 2^31 numbers outstanding the buffer tiles them, and something goes wrong if and only if some acknowledgment is one that the window cannot take |
| `SenderRuns.RunReachesFault` | libsponge/tcp_sending_window.cc:72-82 | a run in which nothing is lost and everything is acknowledged at once in which that happens |
| `SenderRuns.FillIsMaximal` | libsponge/tcp_sender.cc:52-75 | on return the window is full, or nothing is buffered and the stream is open, or the FIN is sent |
| `SenderRuns.FilledIsPacked` | libsponge/tcp_sender.cc:52-75 | as much of the stream goes out as there is room for, in segments of a thousand bytes except the last, which alone carries the FIN, and does so if and only if the stream has ended and there is room for it |
| `SenderRuns.EmptySegmentShowsNext` | libsponge/tcp_sender.cc:125-130 | the empty segment shows the next number and takes none up |
| `SenderRuns.NeverAnEmptySegment` | libsponge/tcp_sender.cc:66-74 | the break on an empty segment is unreachable |
| `SenderRuns.OneFin` | libsponge/tcp_sender.cc:55-64 | two first transmissions never both carry a FIN |
| `SenderRuns.FinsWhileConnecting` | libsponge/tcp_sender.cc:52-75 | with the window open and the SYN outstanding, filling sends as many FINs as there is room beyond what is buffered |
| `SenderRuns.BareAckFinsExactly` | libsponge/tcp_sender.cc:142-145 | how many FINs an acknowledgment of the bare SYN number sets off, and that it is at most one if and only if the stream is open or the window is no larger than what is buffered plus two |
| `SenderRuns.BareAckRepeatsFin` | libsponge/tcp_sending_window.cc:66-70 | the run that sends a window full of FINs |
| `SenderRuns.FlowControlExact` | libsponge/tcp_sending_window.cc:154-175 | after an accepted acknowledgment no more is in flight than the window allows, if and only if its right edge covers what was sent; if it does not, the stream has been emptied into the network |
| `SenderRuns.RightEdgeSuffices` | libsponge/tcp_sender.cc:83-85 | an acknowledgment that does not move the right edge to the left covers what was sent |
| `SenderRuns.OverrunDrains` | libsponge/tcp_sending_window.cc:158-161 | when the right edge has moved left, the space wraps and the whole stream is sent |
| `SenderRuns.ShrunkWindowIsOverrun` | libsponge/tcp_sending_window.cc:158-161 | the run in which a shrunk window is overrun |
| `SenderRuns.RunStaysInWindow` | libsponge/tcp_sender.cc:60-85 | in every run whose accepted windows cover what was sent, bytes in flight never exceed the window (at least one) |
| `SenderRuns.SteadyRunStaysInWindow` | libsponge/tcp_sender.cc:83-85 | a right edge that never moves left is enough for that |
| `RetransmissionTimer.TimersRefineOneExactly` | libsponge/tcp_sender.cc:80-118 | whatever is acknowledged, every call does to the buffer of timers, the timeout, the count and the probing what the rules of section 5 of RFC 6298 do to one timer, if and only if no timeout is truncated to 32 bits; and expiry resends the oldest segment only |
| `RetransmissionTimer.BacksOffUnlessProbing` | libsponge/tcp_sender.cc:83-113 | over every run, on expiry the timeout doubles unless the last acknowledgment advertised a closed window, and otherwise stays |
| `RetransmissionTimer.RunRefinesOneTimer` | libsponge/tcp_sending_window.cc:100-125 | the same followed through every run, with probing taken from the acknowledgments |
| `RetransmissionTimer.TimeoutFits` | libsponge/tcp_sender.cc:110-114 | nothing is truncated during the first fifteen retransmissions in a row |
| `RetransmissionTimer.SeventeenthTimeoutLosesBits` | libsponge/tcp_sending_window.cc:119-125 | the run in which a timer loses its highest bit |
| `Protocol.OnTheWire` | libsponge/tcp_sender.cc:60-69 | everything on the wire carries what its number names |
| `Protocol.MoveKeepsInv` | libsponge/tcp_receiver.cc:5-47 | every move of sender, receiver, application or network keeps the protocol invariant |
| `Protocol.SinkIsPrefixOfSource` | libsponge/tcp_sender.cc:39-118 | end-to-end prefix safety in every state of every run |
| `Delivery.MoveSound` | libsponge/tcp_receiver.cc:34-45 | careful moves keep all acknowledgments, in flight and taken in, backed by delivered bytes |
| `Delivery.AcknowledgedMeansDelivered` | libsponge/tcp_receiver.cc:34-59 | in every careful run, what the sender counts as acknowledged has been delivered, the end is seen only after everything, and FIN acknowledged means all delivered |
| `Alignment.OnlyNextInLineDelivers` | libsponge/tcp_receiver.cc:34-36 | only a segment that is next in line changes what has been handed on |
| `Alignment.ExactStep` | libsponge/tcp_receiver.cc:34-45 | delivering a segment of this sender keeps the acknowledgment number exact |
| `Alignment.RepeatedSynExactly` | libsponge/tcp_receiver.cc:7-45 | a repeated SYN takes the acknowledgment number back, from two to one, if and only if the stream is empty and has ended |
| `Alignment.AckNumberIsExact` | libsponge/tcp_receiver.cc:34-45 | in every careful run of a non-empty stream the acknowledgment number is one plus the bytes handed on plus one for the end |
| `Pacing.PacedFits` | libsponge/tcp_sending_window.cc:154-175 | a sender that keeps to its window never overruns the receiver, whenever its segments arrive |
| `Pacing.OrderlyRunDeliversAll` | libsponge/tcp_sender.cc:80-96 | in every orderly run deliveries fit, the acknowledgment number is exact, and FIN acknowledged means all delivered |
| `Connections.SynchronizedStates` | libsponge/tcp_helpers/tcp_state.cc:17-74 | in the states that send acknowledgments the receiver has its SYN, so the acknowledgment number exists |
| `Connections.StampingLosesNothing` | libsponge/tcp_connection.cc:309-321 | collecting keeps number, order and contents of the segments and gives each the receiver's acknowledgment number and window once there is a SYN |
| `Endpoints.TCPConnection.SegmentReceived` | libsponge/tcp_connection.cc:35-258 | the clock restarts, a RST aborts, anything else is handled by state, and a probe is answered; errors and inactivity stay, the inbound history only grows, and after a RST the state is RESET |
| `Endpoints.TCPConnection.Dispatch` | libsponge/tcp_connection.cc:74-158 | LISTEN, SYN_SENT, SYN_RCVD, ESTABLISHED and FIN_WAIT_1, branch by branch |
| `Endpoints.TCPConnection.OnClosing` | libsponge/tcp_connection.cc:183-245 | FIN_WAIT_2, LAST_ACK, CLOSING, CLOSE_WAIT and TIME_WAIT, branch by branch |
| `Endpoints.TCPConnection.KeepAlive` | libsponge/tcp_connection.cc:247-253 | a probe just below the window is answered |
| `Endpoints.TCPConnection.Tick` | libsponge/tcp_connection.cc:272-303 | the end of TIME_WAIT, the sender's timer, giving up, and collecting; errors and inactivity stay, with more than eight retransmissions the state is RESET, and otherwise what waits and what has run out has been sent |
| `Endpoints.TCPConnection.CollectSenderSegmentsOut` | libsponge/tcp_connection.cc:305-322 | fills the window and moves the queue, stamping each segment when there is an acknowledgment number |
| `Endpoints.TCPConnection.UncleanShutdown` | libsponge/tcp_connection.cc:360-371 | both streams marked broken, inactive, and a RST sent |
| `Endpoints.TCPConnection.ResetReceived` | libsponge/tcp_connection.cc:382-391 | both streams marked broken and inactive, nothing sent |
| `Endpoints.TCPConnection.Write` | libsponge/tcp_connection.cc:265-270 | what the stream accepts is written and sent as far as possible; the inbound side is left alone |
| `Endpoints.TCPConnection.EndInputStream` | libsponge/tcp_connection.cc:324-328 | the outbound stream ends and the FIN goes out if it can; the inbound side is left alone |
| `Lifecycle.ClassifiersAgreeExactly` | libsponge/tcp_helpers/tcp_state.cc:94-110 | the sender's state and its summary agree unless, at the end of the stream, the next number is past the FIN's with data in flight, or, before it, less than what is in flight |
| `Lifecycle.ClassifiersAgree` | libsponge/tcp_sender.cc:132-162 | so they agree in every state that regular runs reach |
| `Lifecycle.InactiveForEver` | libsponge/tcp_connection.cc:74-84 | once inactive, never active again, whatever is called |
| `Lifecycle.ResetForEver` | libsponge/tcp_connection.cc:360-391 | RESET is left by no call |
| `Lifecycle.RstResets` | libsponge/tcp_connection.cc:42-47 | a RST resets from every state and is not answered |
| `Lifecycle.AnswerKeepsInv` | libsponge/tcp_connection.cc:35-391 | every regular call keeps the endpoint invariant |
| `Lifecycle.ActiveIsBounded` | libsponge/tcp_connection.cc:284-291 | whatever is called and whatever any peer sends, an active endpoint has at most eight retransmissions in a row, a timeout of at most 256 initial ones, and timers that hold it in full |
| `Lifecycle.ActiveIsSound` | libsponge/tcp_sending_window.cc:6-98 | in every regular run an active endpoint's window has not gone wrong, its buffer is tiled, and the two classifications of its sender agree |
| `Lifecycle.ArriveHears` | libsponge/tcp_connection.cc:39-245 | in which states which segments without RST are handed to the receiver; the clock restarts |
| `Lifecycle.IgnoredArrive` | libsponge/tcp_connection.cc:74-253 | a segment that the state ignores restarts the clock and has a probe answered, nothing else |
| `Outflow.CollectPasses` | libsponge/tcp_connection.cc:305-322 | collecting sends everything that waits in the sender's queue, in order, with only the acknowledgment fields changed |
| `Outflow.TickResends` | libsponge/tcp_connection.cc:292-302 | in the seven states in which something can be outstanding, a tick sends what waits and, if the front timer has run out, the oldest outstanding segment again |
| `Outflow.TickSendsNothingElse` | libsponge/tcp_connection.cc:292-302 | in all other states, those without a name included, a tick sends nothing unless the endpoint gives up |
| `Outflow.GivingUpSendsRst` | libsponge/tcp_connection.cc:284-291 | the tick that finds more than eight retransmissions sends exactly one segment, a RST, which resets whoever receives it |
| `Outflow.CallsSend` | libsponge/tcp_connection.cc:265-330 | connecting, writing and ending send at once all that the window has room for |
| `Outflow.ReadingTakesBytes` | libsponge/byte_stream.cc:32-62 | reading takes the oldest inbound bytes and leaves everything else alone |
| `Outflow.ArrivalsAreAnswered` | libsponge/tcp_connection.cc:74-245 | every segment that takes up numbers in an open connection, every SYN while it opens and every FIN after that is answered with the receiver's acknowledgment number and window |
| `Outflow.ProbesAreAnswered` | libsponge/tcp_connection.cc:247-253 | so is a keep-alive probe in every state |
| `Outflow.NothingElseIsSent` | libsponge/tcp_connection.cc:74-253 | nothing else is answered |
| `Outflow.ArrivalEmptiesQueue` | libsponge/tcp_connection.cc:127-222 | in an open connection everything a segment sets off is sent before the call returns |
| `Lifecycle.ClosedIsLeftOnlyByRst` | libsponge/tcp_connection.cc:35-47 | over every sequence of calls, CLOSED is left if and only if a RST arrives, and then for RESET |
| `Lifecycle.ClosedInEveryRun` | libsponge/tcp_connection.cc:197-210 | the same from CLOSED as any regular run reaches it |
| `Lifecycle.TimeWaitLasts` | libsponge/tcp_connection.cc:272-282 | without arrivals TIME_WAIT lasts until a tick finds ten initial timeouts gone, and is CLOSED from that tick on |
| `Lifecycle.TimeWaitInEveryRun` | libsponge/tcp_connection.cc:272-282 | the same from TIME_WAIT as any regular run reaches it |
| `Lifecycle.FinAckedIsIdle` | libsponge/tcp_sender.cc:88-93 | with everything acknowledged nothing is outstanding, the count is zero, and filling and ticking do nothing |
| `Silence.NothingHeardForcesReset` | libsponge/tcp_connection.cc:284-291 | with data out and everything that arrives ignored, the endpoint is RESET once all nine timeouts, 511 initial ones in all, and eight times the longest tick have passed |
| `Silence.SilentPeerForcesReset` | libsponge/tcp_connection.cc:284-291 | the same with no segment arriving, whatever the application calls |
| `Silence.SilentPeerInEveryRun` | libsponge/tcp_connection.cc:272-303 | the same from every state with data out that a regular run reaches |
| `Silence.LostGivesUp` | libsponge/tcp_connection.cc:284-291 | the same for an endpoint without a name that does not get its FIN out, even though its peer answers |
| `Silence.HalfClosedIsDeaf` | libsponge/tcp_connection.cc:183-232 | in CLOSE_WAIT a segment without FIN, and in FIN_WAIT_2 one without FIN and ACK together, changes neither the receiver nor what is acknowledged |
| `Silence.HalfClosedGivesUp` | libsponge/tcp_connection.cc:222-232 | so an endpoint that goes on sending in CLOSE_WAIT is RESET even though its peer acknowledges |
| `Stranding.RunKeepsMark` | libsponge/stream_reassembler.cc:19-33 | in every run, whatever is called and whatever any peer sends, nothing is held at or beyond the mark, and nothing has ended before the SYN |
| `Stranding.EarlyFinStrandsExactly` | libsponge/tcp_connection.cc:131-138 | in ESTABLISHED a FIN strands the endpoint if and only if some byte below the mark that it leaves is neither held nor brought by it |
| `Stranding.StrandedIgnores` | libsponge/tcp_connection.cc:74-245 | a stranded endpoint is in no named state and ignores every segment without RST |
| `Stranding.StrandedForEver` | libsponge/tcp_connection.cc:35-303 | whatever is called and whatever arrives, until it is reset it stays stranded, its application gets neither a byte nor the end, and nothing it sent is acknowledged |
| `Naming.AckSummary` | libsponge/tcp_sender.cc:39-96 | what the sender looks like after an acknowledgment, in terms of the window's edges before: connecting, open, FIN out because there is room for it or the edge has moved left, or FIN acknowledged |
| `Naming.ArriveHeeds` | libsponge/tcp_connection.cc:74-245 | in which states whose acknowledgments are heeded, and how they move the edges of the window |
| `Naming.NameIsLostExactly` | libsponge/tcp_connection.cc:74-245 | which segments take a sound endpoint from a named state to one without a name, as an if-and-only-if on state, flags, missing bytes and window |
| `Naming.NameIsLostInEveryRun` | libsponge/tcp_connection.cc:35-258 | the same for whatever state a regular run reaches |
| `Naming.StrandedIsLost` | libsponge/tcp_connection.cc:131-138 | a stranded endpoint is in one of the states without a name that nothing but a reset ends |
| `Naming.LostAnswer` | libsponge/tcp_connection.cc:35-391 | any call on an endpoint without a name freezes both directions and leaves the state alone, unless it is reset or its own FIN goes out |
| `Naming.LostForEver` | libsponge/tcp_connection.cc:35-391 | over every sequence of calls it stays so until it is reset; only one that is like CLOSE_WAIT is taken on, to CLOSING |
| `Handshake.LastIsAcked` | libsponge/tcp_sender.cc:80-96 | acknowledging the last number of a sender that has nothing left to send empties its buffer and moves both edges there |
| `Handshake.HearFin` | libsponge/tcp_receiver.cc:27-45 | a FIN in order ends the inbound stream and is counted in the acknowledgment number |
| `Handshake.ThreeWayHandshake` | libsponge/tcp_connection.cc:54-120 | SYN, SYN with ACK, ACK takes two new endpoints through SYN_SENT and SYN_RCVD to ESTABLISHED, for all initial sequence numbers, capacities and timeouts |
| `Handshake.SimultaneousOpen` | libsponge/tcp_connection.cc:63-120 | two SYNs that cross take both endpoints through SYN_SENT and SYN_RCVD to ESTABLISHED |
| `Handshake.FourWayClose` | libsponge/tcp_connection.cc:131-210 | after any amount of data, FIN, ACK, FIN, ACK takes two endpoints that have everything through FIN_WAIT_1, CLOSE_WAIT, FIN_WAIT_2 and LAST_ACK to TIME_WAIT and CLOSED, and ten initial timeouts later both are CLOSED |
| `Handshake.SimultaneousClose` | libsponge/tcp_connection.cc:172-222 | two FINs that cross take both through FIN_WAIT_1 and CLOSING to TIME_WAIT, and ten initial timeouts later to CLOSED |
| `Handshake.FinOvertakesByte` | libsponge/tcp_connection.cc:131-138 | an endpoint in ESTABLISHED is stranded by a FIN whose byte comes just ahead of one that is missing |
| `Handshake.StrandedAfterHandshake` | libsponge/tcp_connection.cc:131-138 | which can happen right after the opening exchange |
| `Handshake.FinOvertakesAck` | libsponge/tcp_connection.cc:112-120 | in SYN_RCVD a FIN that comes instead of the last ACK leads to a state without a name, from which only the endpoint's own FIN leads on |
| `Handshake.ResetEndpointFloods` | libsponge/tcp_connection.cc:324-328 | an endpoint that has been reset and then ends its stream sends a window full of FINs |
| `Wire.ResetFloodsWithFins` | libsponge/tcp_sender.cc:52-75 | a sender that has been reset, at the end of its stream, makes FINs of all that is left of its window |
| `Wire.FillLapsed` | libsponge/tcp_sender.cc:39-76 | a sender that has been reset sends nothing but its stream and FINs beyond its end |
| `Ends.CallKeepsEnd` | libsponge/tcp_connection.cc:35-391 | every call on an endpoint, reset or not, keeps its sender sound, its receiver in agreement with the peer's stream, and everything it has sent true to its own stream and to the peer's numbers |
| `Duplex.BothSinksArePrefixes` | libsponge/tcp_connection.cc:35-391 | end-to-end prefix safety both ways in every state of every run of two whole endpoints, whatever is called |
| `Completion.CallKeepsBacked` | libsponge/tcp_connection.cc:35-391 | a careful call keeps everything that either endpoint acknowledges, or counts as acknowledged, backed by what has been handed on |
| `Completion.ClosedMeansComplete` | libsponge/tcp_connection.cc:183-303 | in every careful run of two endpoints, a FIN acknowledged means all delivered, and TIME_WAIT or CLOSED on either side means that both applications have everything and know it |
| `Checksum.InternetChecksum.Add` | libsponge/util/util.cc:89-98 | adds the 16-bit words, keeping the parity across calls, modulo 2^32 |
| `Checksum.InternetChecksum.Value` | libsponge/util/util.cc:100-108 | the complement of the folded sum: with it the sum is a multiple of 2^16 - 1, and it is all ones only for zero |
| `Checksum.WordSumChange` | libsponge/util/util.cc:89-98 | changing one byte changes the sum by its change, or 256 times that |
| `Checksum.WordSumConcat` | libsponge/util/util.cc:89-98 | adding in pieces is adding the whole, wherever the cut falls |
| `Checksum.Fold` | libsponge/util/util.cc:103-105 | folding leaves 16 bits with the same value modulo 65535, zero only for zero |
| `Checksum.ChecksumCancels` | libsponge/util/util.cc:100-108 | adding its own checksum to a 32-bit sum never overflows and gives the checksum zero |
| `Codec.UnparseInt` | libsponge/util/parser.cc:53-60 | appends the bytes in network order |
| `Codec.NetParser.ParseInt` | libsponge/util/parser.cc:26-43 | the integer at the front, which fits its width, and zero with the buffer untouched after an error |
| `Codec.NetParser.RemovePrefix` | libsponge/util/parser.cc:45-51 | drops the prefix, or notes that there is not enough |
| `Codec.DigitsSpell` | libsponge/util/parser.cc:26-60 | an integer that fits its width is read back from its bytes |
| `Codec.SerializeHeader` | libsponge/tcp_helpers/tcp_header.cc:51-78 | the fields in order, padded to the data offset; refused below five |
| `Codec.ParseHeader` | libsponge/tcp_helpers/tcp_header.cc:17-48 | the fields, what is left, and the error |
| `Codec.HeaderReadBack` | libsponge/tcp_helpers/tcp_header.cc:17-78 | parsing a serialized header gives all its fields back, except the high bits of a data offset beyond fifteen |
| `Codec.HeaderLayout` | libsponge/tcp_helpers/tcp_header.cc:51-78 | where section 3.1 of RFC 793 puts each field, which bits the flags are, and zeros behind |
| `Codec.ParsedLayout` | libsponge/tcp_helpers/tcp_header.cc:17-48 | the fields of any buffer are read from there |
| `Codec.SerializeSegment` | libsponge/tcp_helpers/tcp_segment.cc:30-45 | header and payload with the checksum over both |
| `Codec.ParseSegment` | libsponge/tcp_helpers/tcp_segment.cc:12-23 | refuses, and leaves the segment alone, if and only if the sum is zero or no multiple of 2^16 - 1; otherwise header, payload and the parser's error |
| `Codec.RefusedExactly` | libsponge/tcp_helpers/tcp_segment.cc:12-23 | the same of the value that the parser computes |
| `Codec.OneChangedByteIsRefused` | libsponge/tcp_helpers/tcp_segment.cc:12-45 | a serialized segment with any one byte changed is refused, as long as the sum fits its 32 bits |
| `Codec.SealedPasses` | libsponge/tcp_helpers/tcp_segment.cc:12-45 | what is serialized passes the checksum when parsed |
| `Codec.SegmentRoundTrip` | libsponge/tcp_helpers/tcp_segment.cc:12-45 | parsing what was serialized gives the segment back, for every payload and pseudo-header sum, if and only if the data offset is below sixteen |
| `Codec.HeaderErrors` | libsponge/tcp_helpers/tcp_header.cc:17-48 | which buffers the header parser complains about, and how |
| `Codec.ShortHeaderIsAcceptedExactly` | libsponge/tcp_helpers/tcp_segment.cc:12-23 | the segment parser swallows the header parser's complaint if and only if the checksum is good and twenty bytes or more advertise a data offset below five |
| `Codec.ZerosAreAccepted` | libsponge/tcp_helpers/tcp_segment.cc:19-22 | twenty zero bytes are parsed without an error |

## Left out

- Threads, sockets, the event loop and random loss (`tcp_sponge_socket`, `fd_adapter`, `tuntap_adapter`, `lossy_fd_adapter`, `util/socket`, `util/eventloop`): loss is a step of the network instead.
- IPv4 headers and datagrams and TCP over IP: the same technique as the segment codec.
- Reference-counted buffers: a buffer is a sequence of bytes.
- The choice of a random initial sequence number: it is a parameter of every theorem.
- The destructor of the endpoint, all printing, and `hexdump`.
- Exact acknowledgment numbers and pacing (`Alignment`, `Pacing`) are for a sender and a receiver rather than for two whole endpoints.
- The queues of sender and endpoint are not emptied in the composed protocols: they are only appended to, so they double as the record of everything sent.
- The sequence numbers of acknowledgments that the endpoint builds by hand stay at their default of zero, as in the program.
- Liveness: whether a fair network eventually delivers everything is not decided by this code.
- The overflow of 64-bit byte, repetition and time counters and of the 32-bit count of retransmissions, which would take 2^64 bytes, pushes or milliseconds, or 2^32 expiries in a row; `Regular`, `RegularCall` and `Small` say where a theorem needs this.
- Reassembly.StreamReassembler.PushSubstring: requires that bytes read plus capacity is below 2^64 - 1, because the program could not allocate its vectors otherwise.
- Reassembly.StreamReassembler.UpdateOutput: the source reads one element past the vector before it looks at the bound; the model looks at the bound first, which gives the same result.
- Reassembly.StreamReassembler.UnassembledBytes: says that the source reads past its vector where it does, not what it finds there.
- SenderRuns.RunTiles: speaks of runs with fewer than 2^31 numbers outstanding when an acknowledgment arrives, because beyond that two outstanding segments can look alike on the wire.
- Duplex.BothSinksArePrefixes: speaks of runs within 2^31 numbers on either side, those of surplus FINs included; a reset endpoint whose window has moved left could use up all 2^64 in one call.
- Lifecycle.ActiveIsBounded: follows the value past a fault, where the program has erased outside its deque and nothing can be said of it; `Lifecycle.ActiveIsSound` says when there is none.
- RetransmissionTimer.TimersRefineOneExactly: likewise.
- RetransmissionTimer.RunRefinesOneTimer: likewise.
- Handshake.FourWayClose: leaves out the one sequence number, 2^32 - 1 for the FIN, at which its acknowledgment is misread.
- Handshake.SimultaneousClose: the same.
- Protocol.SinkIsPrefixOfSource: speaks of runs with fewer than 2^31 sequence numbers, because a repeated segment from further back cannot be told apart by its 32-bit number.
