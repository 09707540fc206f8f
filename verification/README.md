# Verified model of the PARTS transport

PARTS sends one large buffer (a *part*) over a datagram connection. The sender
cuts it into numbered packets; the receiver copies each packet into its slot,
keeps a run-length record of the gaps, and asks for them on a timer; the sender
repeats what was asked for until a finish packet arrives. Messages under 1200
bytes use stop-and-wait instead, and a multipath socket first cuts a message
over several connections.

The project models this in Dafny in the form of the Go code: classes with the
same fields and loops (`PartContext`, `SCIONDataplane`, `ControlPlane`,
`RateControl`, `PartsSocket`), each method proved against a specification
function, and lemmas about those functions over all inputs and all runs.

| file | models |
|---|---|
| `Utils.dfy` | integer helpers, list lookups, removal, counting (utils/utils.go) |
| `Codec.dfy` | the 16-byte packet header (dataplane/partspacker.go) |
| `Chunks.dfy` | fixed-width windows of a buffer (dataplane/partcontext.go:54-64) |
| `GapLedger.dfy` | the receiver's record of gaps and what it stands for |
| `Reassembly.dfy` | one received packet, and any run of them, against the buffer |
| `ReadOutcomes.dfy` | how `ReadPart` ends and what it counts, by the outcome of each datagram |
| `PartContexts.dfy` | class `PartContext` (dataplane/partcontext.go) |
| `Dataplane.dfy` | class `SCIONDataplane`, `WriteSingle`, `ReadSingle` (dataplane/dataplane.go) |
| `Messages.dfy`, `Batching.dfy`, `Merging.dfy` | request packets: how a tick cuts them, how the sender collects them |
| `ControlPlane.dfy` | class `ControlPlane` (controlplane/controlplane.go) |
| `RateControl.dfy`, `RateControlRuns.dfy` | class `RateControl` and its runs (controlplane/ratecontrol.go) |
| `WindowMoves.dfy` | what moves the window and the phase, by the messages of a run alone |
| `Protocol.dfy` | both parties and the network as one step system; safety |
| `Requests.dfy` | what the control packets in flight say, in every run |
| `ReadSteps.dfy` | `ReadPart` as steps of that system |
| `Progress.dfy` | what lossless retransfer rounds do to the ledger |
| `Completion.dfy` | those rounds as steps of the system; completion |
| `Repeats.dfy` | what repeated numbers do to the ledger, exactly |
| `LostRetransfer.dfy` | a run over a network that only loses, in which the sender itself causes such a repeat |
| `Leaving.dfy` | when the sender leaves the retransfer loop, exactly |
| `StopAndWait.dfy` | single packets over a lossy network |
| `Multipath.dfy` | class `PartsSocket` (api/mp.go) |

The network of `Protocol` and `StopAndWait` keeps every datagram ever written
and may deliver any of them at any time, any number of times or never, so loss,
repetition, delay and reordering need no steps of their own. `Protocol` lets
`ReadPart` also read datagrams that carry another part id. Every
lock-protected block and every packet is one step. Sockets, clocks and
randomness appear as parameters: what can be read, after how many writes a
socket fails, the identifiers of a request. Ledger entries, counters and
identifiers are unbounded integers; the header codec works on 64-bit values.

Where the code is weaker than its intent the model keeps the code, and the
exact condition is proved:

- A number that arrives again below the highest one can count down the wrong gap
  (`GapLedger.RepeatLosesPacket`). The ledger represents the stored numbers if
  and only if no such repeat was accepted
  (`Repeats.RepresentsExactlyWithoutLowRepeats`), and the transfer is complete if
  and only if no number came twice and no foreign datagram was read
  (`Protocol.EndToEnd`).
- An entry keeps its start while its count goes down. In every run, repeats
  included, it asks for exactly the missing numbers of its gap if and only if no
  arrival counted it down without filling it, and what came of the gap are its
  last numbers (`Repeats.EntryNamesMissingExactly`); otherwise the next round asks
  for a number that came. So for every part of three packets or more, over a
  network that only loses, and neither repeats nor delays a datagram or a request,
  a packet can go missing for good (`LostRetransfer.LostRetransferLosesPacket`).
- A tick skips blocks of a ledger of more than 200 entries
  (`Batching.BlocksCoverExactlyUpTo200`), and then closes no rate-control epoch.
- A lost last packet is never asked for: rounds complete the part if and only if
  it arrived (`Progress.RoundsComplete`).
- The retransfer loop sets the state again when it is entered, so a finish
  packet that was handled before strands the sender. Once the receiver has
  finished, the sender can leave the loop if and only if that did not happen
  (`Leaving.LeavesUnlessStranded`), and it can happen to every part
  (`Leaving.RaceStrandsSender`).
- The finish packet is written once, and the ticks then stop. A sender that is
  writing or passing through the loop and never handles it never leaves, and no
  other finish packet is ever in flight (`Leaving.LostFinishBindsSender`).
- A multipath message over 1200 bytes panics exactly when there is no connection
  or too many for its length (`Multipath.SplitsExactlyWhenInRange`,
  `Multipath.HundredConnectionsPanic`); otherwise its count is reported as zero.
- A request that a later one overtakes makes the divisor of the loss negative; the
  epoch is judged all the same, as lossy exactly when the quotient of two negative
  numbers reaches 5 (`RateControlRuns.JudgedByTrueQuotient`).
- Entering DRAIN is meant to be followed by a few epochs of waiting; the counter
  is never reset, so this happens once per connection
  (`RateControlRuns.WaitsOnlyOnce`).
- `ReadSingle` prepares an eight-byte reply but sends its whole buffer; the model
  sends the whole buffer.

## Model

| member | source | states |
|---|---|---|
| `Utils.CeilForceInt` | utils/utils.go:96-104 | for every non-zero divisor the least integer not below the true quotient, though computed from a truncated quotient and a comparison of reals |
| `Utils.CeilForceIntIsCeiling` | utils/utils.go:96-104 | for every non-negative x and positive y the result is the exact ceiling of x/y |
| `Utils.IndexOf` | utils/utils.go:18-25 | the first position of the element, or -1 exactly when it is absent |
| `Utils.IndexOfMin` | utils/utils.go:27-46 | the first position at which one of the four branches fires, or -1 |
| `Utils.FloorSearch` | utils/utils.go:27-46 | on an increasing list the lookup is floor search: the last start not above the element, or -1 exactly when all are above it |
| `Utils.Sum` | utils/utils.go:115-121 | the sum of the list |
| `Utils.TruncDivTruncates` | controlplane/ratecontrol.go:88 | Go's integer quotient, for every sign of both operands: its size is the rounded-down quotient of the sizes, and its sign that of the true quotient |
| `Codec.HeaderRoundTrip` | dataplane/partspacker.go:26-48 | for all 64-bit part ids and numbers and any payload, unpacking a packed packet gives back id, number and payload, and rejects it exactly when the context has another id |
| `Codec.HeaderIsLossless` | dataplane/partspacker.go:32-48 | every accepted buffer is the packed form of what it was unpacked to |
| `Codec.WireLayout` | dataplane/partspacker.go:26-37 | byte for byte: eight big-endian bytes of the part id modulo 2^64, eight of the number, then the payload |
| `Chunks.CeilingCovers` | dataplane/partcontext.go:54-58 | the slots below NumPackets are in range and not empty, and reach the end of Data |
| `Chunks.CutAllTiles` | dataplane/partcontext.go:54-58 | slots 0..NumPackets-1 put together are Data |
| `Chunks.ChunksDisjoint` | dataplane/partcontext.go:54-64 | no byte lies in two slots |
| `Chunks.GetAfterSet` | dataplane/partcontext.go:54-64 | reading slot j after writing slot i gives the old bytes if they differ, and otherwise the payload, cut to the slot, before the rest of the old bytes |
| `PartContexts.PartContext.Prepare` | dataplane/partcontext.go:83-99 | packet count is the exact ceiling, the recommended buffer holds one window per packet, the ledger is emptied and nothing else changes |
| `PartContexts.PartContext.GetPayloadByPacketIndex` | dataplane/partcontext.go:54-58 | Data[i*PayloadLength : min((i+1)*PayloadLength, len(Data))] |
| `PartContexts.PartContext.SetPayloadByPacketIndex` | dataplane/partcontext.go:60-64 | the slot is overwritten with the payload, all other bytes stay |
| `PartContexts.PartContext.Pack` | dataplane/partspacker.go:32-37 | the counter advances by one and the buffer is the packed packet with the new number and the old payload |
| `PartContexts.PartContext.PackRetransfer` | dataplane/partspacker.go:26-30 | the buffer is the packed packet with the given number; the counter stays |
| `PartContexts.PartContext.Unpack` | dataplane/partspacker.go:38-48 | the parse of the window, and where the payload starts |
| `PartContexts.PartContext.RecordArrival` | dataplane/partcontext.go:121-173 | what happens before the payload is copied: both lists are those of the specification step, the highest number stays or has grown to the arrival, and false means exactly "Duplicate Retransfer" |
| `PartContexts.PartContext.DeSerializePacket` | dataplane/partcontext.go:113-190 | ledger, data and outcome after any buffer are those of the specification `Deliver`, the out-of-range slot included |
| `GapLedger.ArriveKeepsShape` | dataplane/partcontext.go:121-188 | any arrival, repeated or not, keeps the two lists parallel, starts at least 1 and increasing, offsets positive, entries separated and below the highest number |
| `GapLedger.ShapeOfRun` | dataplane/partcontext.go:121-188 | hence the shape holds over every run, and no arrival exceeds the highest number |
| `GapLedger.GuardNeverFiresAndLookupIsFloor` | dataplane/partcontext.go:128-151 | in every shaped ledger the guard against a second entry never fires, and the lookup is exactly floor search |
| `GapLedger.Conservation` | dataplane/partcontext.go:121-188 | over every run, repeats included: accepted packets plus the sum of offsets equal the highest number plus the repeats of the highest |
| `GapLedger.RefinesArrive` | dataplane/partcontext.go:121-188 | a new number is never turned away, and the ledger with the original gap ends goes on representing the received set |
| `GapLedger.LedgerRefinesReceivedSet` | dataplane/partcontext.go:121-188 | for every arrival order without repeats the ledger represents exactly the numbers received |
| `GapLedger.LedgerAnswers` | dataplane/partcontext.go:146-171 | the offsets sum to the highest number minus the arrivals, each counts the missing numbers of its original gap, and every missing number is found in its entry |
| `GapLedger.EmptyMeansComplete` | dataplane/partcontext.go:156-164 | the list is empty if and only if every number up to the highest has been received |
| `GapLedger.CompleteRun` | dataplane/partcontext.go:121-188 | after 1..N in any order the ledger is empty with highest N |
| `GapLedger.RepeatLosesPacket` | dataplane/partcontext.go:151-156 | arrivals 3, 1, 1 empty the ledger while 2 is missing, and 2 is then turned away |
| `Reassembly.DeliverSenderPacket` | dataplane/partcontext.go:113-190 | in any state a packet of the sender is either turned away or stored in its own slot; it is never foreign and never out of range |
| `Reassembly.DataSafety` | dataplane/partcontext.go:175-177 | under any loss, repetition and order every accepted number's slot equals the sender's and every other slot keeps its old bytes |
| `Reassembly.RetransfersReproduceOriginals` | dataplane/dataplane.go:163-183 | over lists that name packets of the part a pass comes to all their numbers, in order, and ends well, and the packet it repeats for each number is byte for byte the original with that number |
| `Reassembly.AllStored` | dataplane/partcontext.go:175-177 | when every number has been accepted the receiver's data is the sender's |
| `Dataplane.SCIONDataplane.WritePart` | dataplane/dataplane.go:209-227 | on a fresh context exactly the packets 1..N are written, in order; on a write error exactly those before it; the count is len(Data) and 16 bytes for each packet |
| `Reassembly.PartBytes` | dataplane/dataplane.go:209-227 | the first n packets carry the first n slots' bytes and 16 header bytes each |
| `Dataplane.SCIONDataplane.RetransferRound` | dataplane/dataplane.go:160-201 | for any lists: the packets of the numbers a pass comes to are sent, in order, as far as the writes go; it is fatal exactly at a failed write or a zero start, panics exactly at a number without a slot, and ends at a missing offset; a pass that ends clears the lists |
| `Reassembly.PassExactly` | dataplane/dataplane.go:163-191 | for any lists a pass sends the numbers of the entries before the first that has no offset, a zero start or a number without a slot; at that entry it ends, is fatal, or panics behind the numbers that have slots |
| `Dataplane.PassRepeatsOriginals` | dataplane/dataplane.go:163-183 | what a pass over lists that name packets appends to the connection are, number for number and for any number of writes, the datagrams that `WritePart` writes; it is fatal exactly if there are fewer writes than numbers |
| `Reassembly.PassOfNamed` | dataplane/dataplane.go:163-183 | from any entry on, what a pass over such lists still comes to completes what the entries before asked for |
| `Reassembly.SlotsExactlyInRange` | dataplane/partcontext.go:54-58 | a 64-bit number has a slot exactly when the slice expression is in range |
| `Dataplane.SCIONDataplane.ReadPart` | dataplane/dataplane.go:310-333 | one datagram is read per packet of the part, each into its own window of the buffer, whatever becomes of it; it blocks exactly when the 65th datagram is turned away before a slot is out of range, panics exactly at such a slot before that, and otherwise is done or fails by the number of datagrams; after success the count is the bytes of the stored datagrams, RecvPackets has grown by their number, and the channel holds the buffers of the others in order |
| `ReadOutcomes.StatusByOutcomes` | api/conn.go:47 | for any datagrams and any number of buffers in the channel: each way to end, exactly, by what becomes of the datagrams and the room left of 64 |
| `ReadOutcomes.ReadsByOutcomes` | dataplane/dataplane.go:310-333 | the count, RecvPackets and the buffers passed to the channel, by what becomes of the datagrams |
| `ReadSteps.ReadPartIsReadSteps` | dataplane/dataplane.go:310-333 | the reads of `ReadPart` into its fresh buffer and the same reads as steps of the two-party system are done, block or panic alike, and leave the same ledger, data, count and buffers |
| `ReadSteps.BlocksExactlyAtThe65th` | api/conn.go:47 | in every run a read blocks if and only if its datagram is turned away and exactly 64 of those read before were not stored |
| `Dataplane.WriteSingle` | dataplane/dataplane.go:271-308 | it returns without an error if and only if a reply that carries the part id is the first such among as many replies as writes succeed; it has sent the same message once per reply read, and without such a reply as often as writes and replies allow |
| `Dataplane.SingleLayout` | dataplane/dataplane.go:291-293 | byte for byte: eight big-endian bytes of the part id modulo 2^64, then the data |
| `Dataplane.ReplyMatches` | dataplane/dataplane.go:299-305 | a reply is taken for the part id if and only if it starts with its eight bytes, missing bytes counting as zeros |
| `Dataplane.ReadSingle` | dataplane/dataplane.go:228-249 | the caller gets the bytes after the id, the reply is the whole buffer, and the count is the length read, at most 1400, less 8, wrapping at 64 bits below 8 |
| `Batching.BlockStartDoubles` | controlplane/controlplane.go:404-436 | adding an end instead of a width makes each block start at twice the last start plus 100 |
| `Batching.BlocksDisjoint` | controlplane/controlplane.go:404-424 | the blocks of one tick share no entry |
| `Batching.BlockInRange` | controlplane/controlplane.go:405-420 | every block lies inside the lists |
| `Batching.BlocksCoverExactlyUpTo200` | controlplane/controlplane.go:398-441 | the blocks of a tick contain every entry if and only if there are at most 200 |
| `ControlPlane.ControlPlane.RequestRetransfers` | controlplane/controlplane.go:393-441 | for any ledger the loop ends, never takes the branch that repairs the start, and writes packets that each carry part id, highest number, stored packets, transaction and request id, the number of hundreds rounded up, their index k, and the entries from 100*(2^k-1) on, at most a hundred |
| `Batching.TickReports` | controlplane/controlplane.go:411-421 | the same of every packet of a tick, field by field |
| `Requests.RequestsTell` | controlplane/controlplane.go:337-421 | in every reachable state each request in flight names the part, and for some number of arrivals its last number is their highest and its count is those stored; it asks only for numbers below that; a finish packet counts all that were stored |
| `Requests.TicksUntilStopped` | controlplane/controlplane.go:368-441 | in every run a tick writes each of these requests until the ticks are stopped, after ReadPart has returned too |
| `Batching.LedgerAndRateControlAgree` | controlplane/controlplane.go:404-441 | a tick that arrives in order closes exactly one epoch, on the sum of all offsets, when the ledger has at most 200 entries, and otherwise none |
| `Batching.WhichPacketCloses` | controlplane/ratecontrol.go:83 | a request closes an epoch exactly when it is the last of its tick and the ledger has at most 200 entries |
| `ControlPlane.ControlPlane.HandlePartAckPacket` | controlplane/controlplane.go:298-335 | a finish packet only sets both states; any other goes to rate control and is merged into the sender's lists, entry by entry up to an index panic |
| `ControlPlane.ControlPlane.NextPartId` | controlplane/controlplane.go:169-172 | ids increase by one |
| `ControlPlane.ControlPlane.SendPartFinish` | controlplane/controlplane.go:337-356 | one packet is written, which ends the part, names it and the stored packets, and is zero otherwise |
| `Merging.MergeUpToExtends` | controlplane/controlplane.go:316-332 | merging keeps earlier entries in place and starts distinct, and every start of the request is present |
| `Merging.MergeIsIdempotent` | controlplane/controlplane.go:316-332 | merging a request twice is merging it once |
| `Merging.PanicsExactlyOnMissingOffset` | controlplane/controlplane.go:316-332 | merging panics if and only if an entry behind the last offset has a start that is not collected before; otherwise those entries change nothing |
| `RateControl.RateControl.AddAckMessage` | controlplane/ratecontrol.go:75-167 | the field updates are the specification step, truncating division included |
| `RateControlRuns.JudgedByTrueQuotient` | controlplane/ratecontrol.go:81-90 | an epoch is lossy if and only if the true quotient is at least 5, for either sign of the divisor, and as before when nothing new was received |
| `WindowMoves.AccountMirrorsHistory` | controlplane/ratecontrol.go:75-97 | in every run the four loss counters are what the messages since the last epoch and that epoch reported, and an epoch is judged by them |
| `WindowMoves.WindowMoves` | controlplane/ratecontrol.go:99-159 | in every run the window moves only at the end of an epoch: cut by a quarter, a third or half, rounded down, at a judged loss in PROBE, DRAIN or STARTUP, raised by a third in STARTUP and by a fifth at each twentieth loss-free epoch of PROBE, up to 150000, and else left alone |
| `WindowMoves.ProbeCountMirrorsHistory` | controlplane/ratecontrol.go:100-116 | the probe counter is the number of loss-free epochs in PROBE since the last lossy one there, across restarts |
| `WindowMoves.WindowFallsExactlyAtLoss` | controlplane/ratecontrol.go:99-159 | the window falls if and only if a loss is judged and the window is not too small for the cut |
| `WindowMoves.WindowGrowsExactly` | controlplane/ratecontrol.go:99-159 | it grows if and only if a loss-free epoch ends STARTUP or is a twentieth of PROBE, below the maximum and not too small for the rise |
| `WindowMoves.PhaseMoves` | controlplane/ratecontrol.go:99-159 | every change of phase, by the history of the run |
| `RateControl.RateControl.Add` | controlplane/ratecontrol.go:173-187 | in a valid state the modulo is defined, and the pause is taken exactly at multiples of the window |
| `RateControlRuns.WindowStaysInRange` | controlplane/ratecontrol.go:99-159 | over all runs of Start, Stop and AddAckMessage the window stays in 1..150000 |
| `RateControlRuns.SmallWindowIsAbsorbing` | controlplane/ratecontrol.go:99-159 | a window of one or two stays there for ever, restarts included |
| `RateControlRuns.StartupReachesMaximum` | controlplane/ratecontrol.go:139-156 | startup epochs without loss, of any number of packets and across stops and restarts, take a window to exactly 150000 if and only if it starts at three or more and there are enough of them |
| `RateControlRuns.EachEpochGrows` | controlplane/ratecontrol.go:149-154 | below the maximum each such epoch strictly grows the window |
| `RateControlRuns.DrainCountMirrorsHistory` | controlplane/ratecontrol.go:119-137 | modulo 20 the drain counter is the number of counted loss-free epochs since the later of the last entry into PROBE and the last counted loss, across restarts |
| `RateControlRuns.PhaseDiscipline` | controlplane/ratecontrol.go:99-159 | PROBE is entered exactly by the twentieth such epoch, STARTUP exactly by Start |
| `RateControlRuns.WaitsOnlyOnce` | controlplane/ratecontrol.go:119-124 | an epoch in DRAIN goes unjudged exactly when it is the second to fifth over the life of the connection |
| `Protocol.CrossMachineWellFormed` | dataplane/dataplane.go:160-195 | in every reachable state what is in flight are originals, their copies and requests that name packets of the part; the sender's list does too, without repeats; neither side crashes |
| `Protocol.ReceiverSafety` | dataplane/dataplane.go:310-333 | in every reachable state, repeats and foreign datagrams included, stored slots equal the sender's, others are untouched, and the ledger is shaped and balanced |
| `Protocol.AllStoredExactlyWithoutRepeats` | dataplane/dataplane.go:310-333 | when the reads are used up, all packets are stored if and only if none was foreign and no number came twice |
| `Protocol.EndToEnd` | api/conn.go:99-160 | whenever the sender has left the loop ReadPart has returned, all packets are stored if and only if nothing was repeated or foreign, and then the receiver's data equals the sender's and its ledger is empty |
| `Protocol.StrandedForever` | dataplane/dataplane.go:157-160 | once the finish packet was handled before the loop was entered the sender never leaves it |
| `Progress.DeliverEntry` | dataplane/partcontext.go:146-164 | the numbers of an entry, delivered in order, count it down one by one and then remove it |
| `Progress.DeliverWanted` | dataplane/dataplane.go:163-191 | delivering the numbers of any collected entries removes exactly those entries |
| `Progress.WithoutIsExact` | dataplane/partcontext.go:154-164 | the entries that are left are exactly the others, with their counts |
| `Progress.TickIsCollected` | controlplane/controlplane.go:316-332 | handling the packets of a tick makes the sender want exactly the entries of its blocks, beside what it wanted before |
| `Progress.RoundShrinksLedger` | controlplane/controlplane.go:398-441 | a lossless round removes the requested entries, at least min(100, L) of the L, and empties a ledger of at most 200 |
| `Progress.RoundStaysExact` | dataplane/dataplane.go:160-201 | a round asks only for numbers that have not arrived, each once, and what is left still names exactly the missing ones |
| `Progress.FirstPassIsExact` | dataplane/partcontext.go:124-145 | after an in-order pass that loses any packets, each entry names exactly numbers that have not arrived |
| `Progress.RoundsComplete` | controlplane/controlplane.go:398-441 | ceil(L/100) lossless rounds deliver every number exactly once, if and only if the last packet of the first pass arrived |
| `Completion.RequestsStandInEveryRun` | controlplane/controlplane.go:316-332 | in every run, as long as packets arrive in order, all requests in flight and all the sender has collected are, entry for entry, still in the receiver's ledger |
| `Completion.CanComplete` | api/conn.go:99-160 | from every reachable state at the end of such a pass the system can reach, within ceil(L/100) retransfer rounds, the sender having left the loop and the receiver holding the sender's data |
| `Leaving.LeavesUnlessStranded` | dataplane/dataplane.go:157-205 | in every reachable state in which the receiver has finished, some continuation lets the sender leave the loop if and only if the finish packet was not handled before it entered |
| `Leaving.RaceStrandsSender` | dataplane/dataplane.go:157-160 | for every part a lossless run completes the receiver and strands the sender, whatever follows |
| `Leaving.FinishIsWrittenOnce` | controlplane/controlplane.go:98-101 | after the finish packet no other one is ever written, and once the ticks stopped nothing else is |
| `Leaving.LostFinishBindsSender` | controlplane/controlplane.go:98-101 | once the finish packet was written, a sender that writes or passes through the loop with its state set never leaves it in any continuation that does not handle a finish packet |
| `Repeats.Balance` | dataplane/partcontext.go:121-188 | over every run the missing numbers recorded, the numbers stored and the accepted repeats below the highest add up to the highest number |
| `Repeats.RepresentsExactlyWithoutLowRepeats` | dataplane/partcontext.go:146-171 | the ledger represents the stored numbers if and only if no repeat below the highest was accepted |
| `Repeats.CountsAndWaste` | dataplane/partcontext.go:146-171 | in every run the count of an entry and the arrivals wasted on it add up to the missing numbers of its gap |
| `Repeats.NothingWasted` | dataplane/partcontext.go:146-171 | without accepted repeats below the highest no arrival is wasted on any entry |
| `Repeats.EntryNamesMissingExactly` | dataplane/partcontext.go:154-155 | in every run an entry asks for exactly the missing numbers of its gap if and only if no arrival was wasted on it and what came of the gap are its last numbers |
| `LostRetransfer.LostRetransferLosesPacket` | dataplane/partcontext.go:151-156 | for every part of three packets or more: a run over a network in which every datagram and every request is taken right after it was written or never ends with the loop left, an empty ledger and packet 2 never stored |
| `StopAndWait.FinishedMeansDelivered` | dataplane/dataplane.go:271-308 | in every run, when WriteSingle has returned without an error the peer has delivered that message's bytes |
| `StopAndWait.DeliveredWasWritten` | dataplane/dataplane.go:228-249 | nothing is delivered that was not written, and its id names the message |
| `StopAndWait.OneIdOneMessage` | dataplane/dataplane.go:228-249 | all deliveries of one id are equal |
| `StopAndWait.DeliveredAsOftenAsRead` | dataplane/dataplane.go:228-249 | a message is delivered exactly as often as its datagram is read from the network |
| `StopAndWait.DeliveredTwice` | dataplane/dataplane.go:228-249 | a lost reply makes one finished write arrive twice |
| `StopAndWait.DeliveredInOrder` | dataplane/dataplane.go:271-308 | when a write has returned, its message was delivered before every delivery of a message with a later id |
| `Multipath.SplitsExactlyWhenInRange` | api/mp.go:80-87 | neither the division by the number of connections nor a slice expression panics if and only if there is a connection and the start of the last slice is within the message |
| `Multipath.SliceLenIsLeast` | api/mp.go:80 | the slice width is the least with which the slices hold the message |
| `Multipath.SplitsExactlyByLeastWidth` | api/mp.go:80-87 | so the write panics if and only if n-1 slices of the least width are longer than the message |
| `Multipath.SlicesOfLeastWidth` | api/mp.go:80-87 | slice i is b[i*w : min((i+1)*w, len(b))] with that w |
| `Multipath.SquareSuffices` | api/mp.go:80-87 | (n-1)*(n-1) <= len(b) is enough |
| `Multipath.UpTo35Connections` | api/mp.go:75-87 | so up to 35 connections are enough for every message that is split |
| `Multipath.HundredConnectionsPanic` | api/mp.go:80-87 | 1201 bytes over 100 connections panic |
| `Multipath.SlicesConcatenate` | api/mp.go:80-87 | the slices in order are the message |
| `Multipath.SlicesDisjoint` | api/mp.go:80-87 | no byte is in two slices |
| `Multipath.TwoLevelSplitIsPartition` | api/mp.go:78-91 | cutting every slice into packets and putting the payloads together gives the message |
| `Multipath.PartsSocket.Write` | api/mp.go:74-96 | up to 1200 bytes go to the first connection whole; of a longer message connection i is handed b[i*w : min((i+1)*w, len(b))] with the least w that covers it, and zero bytes are reported, or the write panics exactly when there is no connection or n-1 such slices are longer than the message |
| `Multipath.PartsSocket.Read` | api/mp.go:98-120 | each connection reads into its own slice of the buffer, cut at the same least width, with the same count and the same panics |
| `Multipath.ReadRestoresWrite` | api/mp.go:98-120 | if each connection delivers the slice that was handed to it, the reader's buffer is the message |

## Left out

- Sockets, SCION paths and the transport packet packer: foreign code; only a constant transport header length is kept.
- Gob encoding and the handshake: both ends are assumed to start with the same part id, packet length and data length.
- Goroutines, tickers, sleeps and unsynchronised reads: steps are atomic instead, a whole request tick being one of them.
- Write errors during a part in `Protocol`: `SCIONDataplane.WritePart` states what a failed write leaves; in the step system a lost datagram stands for it.
- The per-packet pacing callback `OnPartStatusChange`: `RateControl.Add` models what it calls, but the data plane does not call it.
- The outer loop of `RetransferMissingPackets`: `SCIONDataplane.RetransferRound` is one pass, and the repetition of passes is the step system's.
- Liveness outside lossless rounds: completion is proved for rounds in which the request and the repeated packets arrive.
- 64-bit wrap-around of counters and of numbers far outside a part, and the rounding of float64 above 2^53.
- The in-place shift of `RemoveFromSliceByIndex`: entries are sequences, so the aliasing of two slices of one array is not modelled.
- Several parts on one connection: a finish packet is not matched to a part id, so nothing is claimed there.
- Metrics, logging, `RemoveFromSlice`, `CeilForce`, `Max`, `Max64`, `AppendIfMissing`, `IncreasePortInAddress`, `ByteCountSI`, the examples and commented-out code: no property of the model turns on them.
- Dataplane.SCIONDataplane.WritePart: assumes a context whose counter is zero, as every part gets a new context.
- Completion.CanComplete: shows one schedule per state; that every lossless round has this effect on the ledger is `Progress.RoundShrinksLedger`.
- Multipath.PartsSocket.Write: the count that the first connection returns for a short message is a parameter.
- Multipath.PartsSocket.Read: likewise; and the connections are read one after the other, which is one of the orders in which they run.
