// The transfer of one part as a two-party step system. Each packet handled and
// each lock-protected block is one step; the network may lose, repeat, delay
// and reorder everything, and may hand the receiver foreign datagrams
// (order of calls: api/conn.go:99-160).
module Protocol {
  import opened Utils
  import opened Codec
  import opened Chunks
  import opened GapLedger
  import opened Reassembly
  import opened Messages
  import opened Batching
  import opened Merging

  // src: the sender's data. before: what the receiver's buffer held.
  datatype Params = Params(partId: int, pl: int, max: nat, src: seq<byte>, before: seq<byte>)

  predicate WellFormed(p: Params)
  {
    Sendable(p.partId, p.pl, p.src) && |p.before| == |p.src| && p.max >= HEADER_LEN + p.pl
  }

  function Count(p: Params): nat
    requires WellFormed(p)
  {
    PacketCount(p.pl, p.src)
  }

  // Writing(i): in WritePart, before packet i. AtLoopTest: about to test the
  // state in RetransferMissingPackets. InRound(snap, i, j): in a pass over the
  // snap entries present when it began, before packet j of entry i. Left: past
  // the loop. Crashed: log.Fatal or a panic.
  datatype SenderPhase = Writing(i: nat) | AtLoopTest | InRound(snap: nat, i: nat, j: nat) | Left | Crashed

  // retransferring: the data plane's state is DP_STATE_RETRANSFER.
  // handling: HandleAckPackets has not returned.
  datatype Sender = Sender(phase: SenderPhase, retransferring: bool, wanted: Wanted, handling: bool)

  // Blocked: ReadPart waits for room in the full channel to the control plane.
  // FinishSent: ReadPart has returned and the finish packet is written.
  // Stopped: the request ticker has stopped too.
  datatype ReceiverPhase = Reading | Blocked | FinishSent | Stopped | Dead

  // arrivals and foreign are history: the numbers of this part's packets read
  // so far, and how many foreign datagrams were read.
  datatype Receiver = Receiver(phase: ReceiverPhase, reader: Reader, arrivals: seq<int>, foreign: nat)

  // data, control: everything ever written in each direction.
  datatype State = State(sender: Sender, receiver: Receiver, data: set<seq<byte>>, control: set<AckPacket>)

  datatype Step =
    | SendOriginal
    | EnterLoop
    | BeginRound
    | SendAgain
    | EndRound
    | LeaveLoop
    | HandleControl(packet: AckPacket)
    | Read(datagram: seq<byte>)
    | RequestTick(txId: int, requestSequenceId: int)
    | FinishRead
    | StopTicks

  function Init(p: Params): State
  {
    State(Sender(Writing(0), false, Wanted([], []), true),
          Receiver(Reading, Reader(Rx(FRESH, p.before), 0, []), [], 0), {}, {})
  }

  // ---------------------------------------------------------- sender steps

  function SendOriginalStep(p: Params, s: State): State
    requires WellFormed(p)
  {
    if s.sender.phase.Writing? && s.sender.phase.i < Count(p) then
      var i := s.sender.phase.i;
      s.(sender := s.sender.(phase := Writing(i + 1)),
         data := s.data + {PartPacketBytes(p.partId, p.pl, p.src, i + 1)})
    else s
  }

  function EnterLoopStep(p: Params, s: State): State
    requires WellFormed(p)
  {
    if s.sender.phase.Writing? && s.sender.phase.i >= Count(p)
    then s.(sender := s.sender.(phase := AtLoopTest, retransferring := true))
    else s
  }

  function BeginRoundStep(s: State): State
  {
    if s.sender.phase.AtLoopTest? && s.sender.retransferring
    then s.(sender := s.sender.(phase := InRound(|s.sender.wanted.nums|, 0, 0)))
    else s
  }

  function SendAgainStep(p: Params, s: State): State
    requires WellFormed(p)
  {
    if !s.sender.phase.InRound? then s
    else
      var InRound(snap, i, j) := s.sender.phase;
      var Wanted(nums, offs) := s.sender.wanted;
      if i >= snap || i >= |nums| then s
      else if nums[i] == 0 then s.(sender := s.sender.(phase := Crashed))
      else if i >= |offs| then s.(sender := s.sender.(phase := InRound(snap, snap, 0)))
      else if j >= offs[i] then s.(sender := s.sender.(phase := InRound(snap, i + 1, 0)))
      else if !InRange(|p.src|, p.pl, nums[i] + j - 1) || !IsInt64(nums[i] + j)
      then s.(sender := s.sender.(phase := Crashed))
      else s.(sender := s.sender.(phase := InRound(snap, i, j + 1)),
              data := s.data + {Wire(p.partId, nums[i] + j, Chunk(p.src, p.pl, nums[i] + j - 1))})
  }

  function EndRoundStep(s: State): State
  {
    if s.sender.phase.InRound? && s.sender.phase.i >= s.sender.phase.snap
    then s.(sender := s.sender.(phase := AtLoopTest, wanted := Wanted([], [])))
    else s
  }

  function LeaveLoopStep(s: State): State
  {
    if s.sender.phase.AtLoopTest? && !s.sender.retransferring
    then s.(sender := s.sender.(phase := Left))
    else s
  }

  function HandleControlStep(s: State, a: AckPacket): State
  {
    if !s.sender.handling || a !in s.control then s
    else if a.partFinished then s.(sender := s.sender.(retransferring := false, handling := false))
    else
      var (nums, offs) := (a.missingSequenceNumbers, a.missingSequenceNumberOffsets);
      var m := TryMerge(s.sender.wanted, nums, offs, |nums|);
      if m.panicked then s.(sender := s.sender.(phase := Crashed, wanted := m.w))
      else s.(sender := s.sender.(wanted := m.w))
  }

  // -------------------------------------------------------- receiver steps

  // A datagram whose first eight bytes are not this part's id.
  predicate IsForeign(p: Params, datagram: seq<byte>)
    requires WellFormed(p)
  {
    Parse(Window(datagram, p.max), p.partId).Foreign?
  }

  function ReadStep(p: Params, s: State, datagram: seq<byte>): State
    requires WellFormed(p)
  {
    var r := s.receiver;
    if r.phase != Reading || |r.arrivals| + r.foreign >= Count(p) then s
    else if !(datagram in s.data || IsForeign(p, datagram)) then s
    else if !Parallel(r.reader.rx.ledger) then s
    else
      var window := Window(datagram, p.max);
      match StatusOfOne(r.reader, p.partId, p.pl, window)
      case Panicked => s.(receiver := r.(phase := Dead))
      case ChannelFull => s.(receiver := r.(phase := Blocked))
      case _ =>
        var next := ReadOne(r.reader, p.partId, p.pl, window);
        match Parse(window, p.partId)
        case Foreign => s.(receiver := r.(reader := next, foreign := r.foreign + 1))
        case PartPacket(n, _) => s.(receiver := r.(reader := next, arrivals := r.arrivals + [n]))
  }

  function RequestTickStep(p: Params, s: State, txId: int, requestSequenceId: int): State
  {
    var r := s.receiver;
    if r.phase == Stopped || r.phase == Dead || !Parallel(r.reader.rx.ledger) then s
    else
      var packets := Tick(r.reader.rx.ledger, TickInfo(p.partId, r.reader.recvPackets, txId, requestSequenceId));
      s.(control := s.control + set k | 0 <= k < |packets| :: packets[k])
  }

  function FinishReadStep(p: Params, s: State): State
    requires WellFormed(p)
  {
    var r := s.receiver;
    if r.phase == Reading && |r.arrivals| + r.foreign >= Count(p)
    then s.(receiver := r.(phase := FinishSent),
            control := s.control + {PartFinish(p.partId, r.reader.recvPackets)})
    else s
  }

  function StopTicksStep(s: State): State
  {
    if s.receiver.phase == FinishSent then s.(receiver := s.receiver.(phase := Stopped)) else s
  }

  // A step that is not possible in a state leaves it alone.
  function Next(p: Params, s: State, step: Step): State
    requires WellFormed(p)
  {
    match step
    case SendOriginal => SendOriginalStep(p, s)
    case EnterLoop => EnterLoopStep(p, s)
    case BeginRound => BeginRoundStep(s)
    case SendAgain => SendAgainStep(p, s)
    case EndRound => EndRoundStep(s)
    case LeaveLoop => LeaveLoopStep(s)
    case HandleControl(a) => HandleControlStep(s, a)
    case Read(datagram) => ReadStep(p, s, datagram)
    case RequestTick(txId, id) => RequestTickStep(p, s, txId, id)
    case FinishRead => FinishReadStep(p, s)
    case StopTicks => StopTicksStep(s)
  }

  function RunFrom(p: Params, s: State, steps: seq<Step>): State
    requires WellFormed(p)
  {
    if |steps| == 0 then s
    else Next(p, RunFrom(p, s, steps[..|steps| - 1]), steps[|steps| - 1])
  }

  function After(p: Params, steps: seq<Step>): State
    requires WellFormed(p)
  {
    RunFrom(p, Init(p), steps)
  }

  // --------------------------------------------------------- the invariant

  ghost predicate SenderMade(p: Params, datagram: seq<byte>)
    requires WellFormed(p)
  {
    exists n :: 1 <= n <= Count(p) && datagram == PartPacketBytes(p.partId, p.pl, p.src, n)
  }

  predicate FinishWritten(s: State)
  {
    s.receiver.phase == FinishSent || s.receiver.phase == Stopped
  }

  // What is in flight: originals and exact copies of them; requests that name
  // packets of the part; a finish packet only after ReadPart has returned.
  ghost predicate NetworkInv(p: Params, s: State)
    requires WellFormed(p)
  {
    && (forall d :: d in s.data ==> SenderMade(p, d))
    && (forall a :: a in s.control ==>
          if a.partFinished then FinishWritten(s)
          else NamesPackets(a.missingSequenceNumbers, a.missingSequenceNumberOffsets, Count(p)))
  }

  ghost predicate SenderInv(p: Params, s: State)
    requires WellFormed(p)
  {
    var w, ph := s.sender.wanted, s.sender.phase;
    && Keyed(w) && NamesPackets(w.nums, w.offs, Count(p))
    && !ph.Crashed?
    && (ph.Writing? ==> ph.i <= Count(p))
    && (ph.InRound? ==> ph.i <= ph.snap <= |w.nums| && (ph.i < ph.snap ==> ph.j <= w.offs[ph.i]))
    && ((ph.AtLoopTest? || ph.InRound? || ph.Left?) && !s.sender.retransferring ==> FinishWritten(s))
    && (ph.Left? ==> !s.sender.retransferring)
  }

  ghost predicate ReceiverInv(p: Params, s: State)
    requires WellFormed(p)
  {
    var r := s.receiver;
    && FromSender(p.pl, p.src, r.arrivals)
    && r.reader.rx == StoreAll(Rx(FRESH, p.before), p.pl, p.src, r.arrivals)
    && r.reader.recvPackets == AcceptedCount(r.arrivals)
    && r.reader.recvPackets + |r.reader.rejected| == |r.arrivals| + r.foreign
    && |r.reader.rejected| <= 64
    && |r.arrivals| + r.foreign <= Count(p)
    && (FinishWritten(s) ==> |r.arrivals| + r.foreign == Count(p))
    && r.phase != Dead
  }

  ghost predicate Inv(p: Params, s: State)
    requires WellFormed(p)
  {
    NetworkInv(p, s) && SenderInv(p, s) && ReceiverInv(p, s)
  }

  lemma InitInv(p: Params)
    requires WellFormed(p)
    ensures Inv(p, Init(p))
  {
  }

  lemma SendOriginalKeepsInv(p: Params, s: State)
    requires WellFormed(p) && Inv(p, s)
    ensures Inv(p, SendOriginalStep(p, s))
  {
  }

  lemma EnterLoopKeepsInv(p: Params, s: State)
    requires WellFormed(p) && Inv(p, s)
    ensures Inv(p, EnterLoopStep(p, s))
  {
  }

  lemma BeginRoundKeepsInv(p: Params, s: State)
    requires WellFormed(p) && Inv(p, s)
    ensures Inv(p, BeginRoundStep(s))
  {
  }

  lemma EndRoundKeepsInv(p: Params, s: State)
    requires WellFormed(p) && Inv(p, s)
    ensures Inv(p, EndRoundStep(s))
  {
  }

  lemma LeaveLoopKeepsInv(p: Params, s: State)
    requires WellFormed(p) && Inv(p, s)
    ensures Inv(p, LeaveLoopStep(s))
  {
  }

  // A retransferred packet is the original with its number.
  lemma SendAgainIsOriginal(p: Params, n: int)
    requires WellFormed(p) && 1 <= n <= Count(p)
    ensures InRange(|p.src|, p.pl, n - 1) && IsInt64(n)
    ensures Wire(p.partId, n, Chunk(p.src, p.pl, n - 1)) == PartPacketBytes(p.partId, p.pl, p.src, n)
  {
    PacketCountIsInt64(p.pl, p.src);
    var slot := SlotOf(p.pl, p.src, n);
  }

  // The state after a packet of the pass is written.
  function SentAgain(s: State, datagram: seq<byte>): State
    requires s.sender.phase.InRound?
  {
    s.(sender := s.sender.(phase := s.sender.phase.(j := s.sender.phase.j + 1)), data := s.data + {datagram})
  }

  // n is the number of the next packet of the pass.
  predicate NextOfPass(s: State, n: int)
  {
    && s.sender.phase.InRound?
    && var InRound(snap, i, j) := s.sender.phase;
    && i < snap && i < |s.sender.wanted.nums| && i < |s.sender.wanted.offs|
    && s.sender.wanted.nums[i] >= 1 && j < s.sender.wanted.offs[i] && n == s.sender.wanted.nums[i] + j
  }

  lemma SendAgainSends(p: Params, s: State, n: int, datagram: seq<byte>)
    requires WellFormed(p) && NextOfPass(s, n)
    requires 1 <= n <= Count(p) && datagram == PartPacketBytes(p.partId, p.pl, p.src, n)
    ensures SendAgainStep(p, s) == SentAgain(s, datagram)
  {
    SendAgainIsOriginal(p, n);
  }

  lemma SentKeepsInv(p: Params, s: State, n: int, datagram: seq<byte>)
    requires WellFormed(p) && Inv(p, s) && NextOfPass(s, n)
    requires 1 <= n <= Count(p) && datagram == PartPacketBytes(p.partId, p.pl, p.src, n)
    ensures Inv(p, SentAgain(s, datagram))
  {
    assert SenderMade(p, datagram);
  }

  lemma SendAgainKeepsInv(p: Params, s: State)
    requires WellFormed(p) && Inv(p, s)
    ensures Inv(p, SendAgainStep(p, s))
  {
    if s.sender.phase.InRound? {
      var InRound(snap, i, j) := s.sender.phase;
      var Wanted(nums, offs) := s.sender.wanted;
      if i < snap && j < offs[i] {
        SendingAgainKeepsInv(p, s, nums[i] + j);
      }
    }
  }

  lemma SendingAgainKeepsInv(p: Params, s: State, n: int)
    requires WellFormed(p) && Inv(p, s) && s.sender.phase.InRound?
    requires var InRound(snap, i, j) := s.sender.phase;
             i < snap && j < s.sender.wanted.offs[i] && n == s.sender.wanted.nums[i] + j
    ensures Inv(p, SendAgainStep(p, s))
  {
    var datagram := PartPacketBytes(p.partId, p.pl, p.src, n);
    SendAgainSends(p, s, n, datagram);
    SentKeepsInv(p, s, n, datagram);
  }

  lemma MergeKeepsNames(w: Wanted, nums: seq<int>, offs: seq<int>, count: int)
    requires Keyed(w) && NamesPackets(w.nums, w.offs, count) && NamesPackets(nums, offs, count)
    ensures var r := Merge(w, nums, offs);
            Keyed(r) && NamesPackets(r.nums, r.offs, count) && w.nums <= r.nums && w.offs <= r.offs
  {
    var r := Merge(w, nums, offs);
    MergeUpToExtends(w, nums, offs, |nums|);
    forall i | 0 <= i < |r.nums| ensures 1 <= r.nums[i] && 1 <= r.offs[i] && r.nums[i] + r.offs[i] - 1 <= count {
      MergeUpToAddsOnly(w, nums, offs, |nums|, i);
    }
  }

  lemma HandleControlKeepsInv(p: Params, s: State, a: AckPacket)
    requires WellFormed(p) && Inv(p, s)
    ensures Inv(p, HandleControlStep(s, a))
  {
    if s.sender.handling && a in s.control && !a.partFinished {
      PairedListsMerge(s.sender.wanted, a.missingSequenceNumbers, a.missingSequenceNumberOffsets,
                       |a.missingSequenceNumbers|);
      MergeKeepsNames(s.sender.wanted, a.missingSequenceNumbers, a.missingSequenceNumberOffsets, Count(p));
    }
  }

  // Reading packet n of this part appends n to the history and stores it as
  // the runs of Reassembly do, unless the channel is full.
  function OwnRead(p: Params, r: Receiver, n: int): Receiver
    requires WellFormed(p) && FromSender(p.pl, p.src, r.arrivals) && 1 <= n <= Count(p)
  {
    var window := Window(PartPacketBytes(p.partId, p.pl, p.src, n), p.max);
    var rejected := r.reader.rejected + if Rejects(GapLedger.Run(r.arrivals), n) then [window] else [];
    if |rejected| > 64 then r.(phase := Blocked)
    else
      HistoryGrows(p, r.arrivals, n);
      var all := r.arrivals + [n];
      r.(reader := Reader(StoreAll(Rx(FRESH, p.before), p.pl, p.src, all), AcceptedCount(all), rejected),
         arrivals := all)
  }

  lemma ReadOneOf(r: Reader, partId: int, pl: int, window: seq<byte>, rx: Rx, rejects: bool)
    requires Parallel(r.rx.ledger) && |window| >= HEADER_LEN
    requires Deliver(r.rx, partId, pl, window) == Received(rx, if rejects then DuplicateRetransfer else Stored)
    ensures ReadOne(r, partId, pl, window)
         == Reader(rx, r.recvPackets + if rejects then 0 else 1, r.rejected + if rejects then [window] else [])
  {
  }

  lemma OwnPacketIsRead(p: Params, r: Receiver, datagram: seq<byte>, n: int)
    requires WellFormed(p) && 1 <= n <= Count(p)
    requires datagram == PartPacketBytes(p.partId, p.pl, p.src, n)
    requires FromSender(p.pl, p.src, r.arrivals)
    requires r.reader.rx == StoreAll(Rx(FRESH, p.before), p.pl, p.src, r.arrivals)
    ensures var window := Window(datagram, p.max);
            var rejects := Rejects(GapLedger.Run(r.arrivals), n);
            && Parse(window, p.partId).PartPacket? && Parse(window, p.partId).seqNum == n
            && Deliver(r.reader.rx, p.partId, p.pl, window)
               == Received(Store(r.reader.rx, p.pl, p.src, n), if rejects then DuplicateRetransfer else Stored)
  {
    SenderPacketParses(p.partId, p.pl, p.src, n, p.max);
    DataSafety(p.before, p.pl, p.src, r.arrivals);
    DeliverSenderPacket(r.reader.rx, p.partId, p.pl, p.src, n, p.max);
  }

  lemma LedgerIsRun(p: Params, r: Receiver)
    requires WellFormed(p) && FromSender(p.pl, p.src, r.arrivals)
    requires r.reader.rx == StoreAll(Rx(FRESH, p.before), p.pl, p.src, r.arrivals)
    ensures Parallel(r.reader.rx.ledger) && r.reader.rx.ledger == GapLedger.Run(r.arrivals)
  {
    DataSafety(p.before, p.pl, p.src, r.arrivals);
  }

  lemma ReadOwnStep(p: Params, s: State, datagram: seq<byte>, n: int)
    requires WellFormed(p) && ReceiverInv(p, s) && 1 <= n <= Count(p)
    requires datagram == PartPacketBytes(p.partId, p.pl, p.src, n) && datagram in s.data
    requires s.receiver.phase == Reading && |s.receiver.arrivals| + s.receiver.foreign < Count(p)
    ensures ReadStep(p, s, datagram) == s.(receiver := OwnRead(p, s.receiver, n))
  {
    var r, window := s.receiver, Window(datagram, p.max);
    var rejects := Rejects(GapLedger.Run(r.arrivals), n);
    LedgerIsRun(p, r);
    OwnPacketIsRead(p, r, datagram, n);
    ReadOneOf(r.reader, p.partId, p.pl, window, Store(r.reader.rx, p.pl, p.src, n), rejects);
    HistoryGrows(p, r.arrivals, n);
  }

  lemma OwnReadKeepsInv(p: Params, s: State, n: int)
    requires WellFormed(p) && Inv(p, s) && 1 <= n <= Count(p)
    requires s.receiver.phase == Reading && |s.receiver.arrivals| + s.receiver.foreign < Count(p)
    ensures Inv(p, s.(receiver := OwnRead(p, s.receiver, n)))
  {
    HistoryGrows(p, s.receiver.arrivals, n);
  }

  // Reading a foreign datagram.
  function ForeignRead(r: Receiver, window: seq<byte>): Receiver
  {
    if |r.reader.rejected| >= 64 then r.(phase := Blocked)
    else r.(reader := r.reader.(rejected := r.reader.rejected + [window]), foreign := r.foreign + 1)
  }

  lemma ReadForeignStep(p: Params, s: State, datagram: seq<byte>)
    requires WellFormed(p) && ReceiverInv(p, s) && IsForeign(p, datagram)
    requires s.receiver.phase == Reading && |s.receiver.arrivals| + s.receiver.foreign < Count(p)
    ensures ReadStep(p, s, datagram) == s.(receiver := ForeignRead(s.receiver, Window(datagram, p.max)))
  {
    LedgerIsRun(p, s.receiver);
  }

  lemma ForeignReadKeepsInv(p: Params, s: State, window: seq<byte>)
    requires WellFormed(p) && Inv(p, s)
    requires s.receiver.phase == Reading && |s.receiver.arrivals| + s.receiver.foreign < Count(p)
    ensures Inv(p, s.(receiver := ForeignRead(s.receiver, window)))
  {
  }

  lemma ReadKeepsInv(p: Params, s: State, datagram: seq<byte>)
    requires WellFormed(p) && Inv(p, s)
    ensures Inv(p, ReadStep(p, s, datagram))
  {
    var r := s.receiver;
    if r.phase == Reading && |r.arrivals| + r.foreign < Count(p) {
      if IsForeign(p, datagram) {
        ReadForeignStep(p, s, datagram);
        ForeignReadKeepsInv(p, s, Window(datagram, p.max));
      } else if datagram in s.data {
        assert SenderMade(p, datagram);
        var n :| 1 <= n <= Count(p) && datagram == PartPacketBytes(p.partId, p.pl, p.src, n);
        ReadOwnStep(p, s, datagram, n);
        OwnReadKeepsInv(p, s, n);
      }
    }
  }

  lemma HistoryGrows(p: Params, arrivals: seq<int>, n: int)
    requires WellFormed(p) && FromSender(p.pl, p.src, arrivals) && 1 <= n <= Count(p)
    ensures FromSender(p.pl, p.src, arrivals + [n])
    ensures StoreAll(Rx(FRESH, p.before), p.pl, p.src, arrivals + [n])
         == Store(StoreAll(Rx(FRESH, p.before), p.pl, p.src, arrivals), p.pl, p.src, n)
    ensures AcceptedCount(arrivals + [n])
         == AcceptedCount(arrivals) + if Rejects(GapLedger.Run(arrivals), n) then 0 else 1
  {
    assert (arrivals + [n])[..|arrivals|] == arrivals;
  }

  // A request names only packets of the part.
  lemma RequestNamesPackets(l: Ledger, info: TickInfo, k: nat, count: int)
    requires Shape(l) && l.highest <= count && k < NumBlocks(|l.nums|)
    ensures var a := RequestPacket(l, info, k);
            !a.partFinished && NamesPackets(a.missingSequenceNumbers, a.missingSequenceNumberOffsets, count)
  {
    BlockInRange(|l.nums|, k);
    var a := RequestPacket(l, info, k);
    forall i | 0 <= i < |a.missingSequenceNumbers|
      ensures 1 <= a.missingSequenceNumbers[i] && 1 <= a.missingSequenceNumberOffsets[i]
      ensures a.missingSequenceNumbers[i] + a.missingSequenceNumberOffsets[i] - 1 <= count
    {
      assert EntryInside(l, BlockStart(k) + i);
    }
  }

  lemma RequestTickKeepsInv(p: Params, s: State, txId: int, id: int)
    requires WellFormed(p) && Inv(p, s)
    ensures Inv(p, RequestTickStep(p, s, txId, id))
  {
    var r := s.receiver;
    DataSafety(p.before, p.pl, p.src, r.arrivals);
    ShapeOfRun(r.arrivals);
    HighestIsBounded(r.arrivals, Count(p));
    var info := TickInfo(p.partId, r.reader.recvPackets, txId, id);
    TickNamesPackets(r.reader.rx.ledger, info, Count(p));
  }

  lemma TickNamesPackets(l: Ledger, info: TickInfo, count: int)
    requires Shape(l) && l.highest <= count
    ensures forall k :: 0 <= k < |Tick(l, info)| ==>
              var a := Tick(l, info)[k];
              !a.partFinished && NamesPackets(a.missingSequenceNumbers, a.missingSequenceNumberOffsets, count)
  {
    forall k | 0 <= k < |Tick(l, info)|
      ensures var a := Tick(l, info)[k];
              !a.partFinished && NamesPackets(a.missingSequenceNumbers, a.missingSequenceNumberOffsets, count)
    {
      RequestNamesPackets(l, info, k, count);
    }
  }

  lemma FinishKeepsInv(p: Params, s: State)
    requires WellFormed(p) && Inv(p, s)
    ensures Inv(p, FinishReadStep(p, s))
    ensures Inv(p, StopTicksStep(s))
  {
  }

  lemma {:induction false} InvHolds(p: Params, steps: seq<Step>)
    requires WellFormed(p)
    ensures Inv(p, After(p, steps))
  {
    if |steps| == 0 {
      InitInv(p);
    } else {
      InvHolds(p, steps[..|steps| - 1]);
      NextKeepsInv(p, After(p, steps[..|steps| - 1]), steps[|steps| - 1]);
    }
  }

  lemma NextKeepsInv(p: Params, s: State, step: Step)
    requires WellFormed(p) && Inv(p, s)
    ensures Inv(p, Next(p, s, step))
  {
    match step
    case SendOriginal => SendOriginalKeepsInv(p, s);
    case EnterLoop => EnterLoopKeepsInv(p, s);
    case BeginRound => BeginRoundKeepsInv(p, s);
    case SendAgain => SendAgainKeepsInv(p, s);
    case EndRound => EndRoundKeepsInv(p, s);
    case LeaveLoop => LeaveLoopKeepsInv(p, s);
    case HandleControl(a) => HandleControlKeepsInv(p, s, a);
    case Read(datagram) => ReadKeepsInv(p, s, datagram);
    case RequestTick(txId, id) => RequestTickKeepsInv(p, s, txId, id);
    case FinishRead => FinishKeepsInv(p, s);
    case StopTicks => FinishKeepsInv(p, s);
  }

  // ------------------------------------------------------------- theorems

  // In every reachable state: every datagram in flight is an original or a copy
  // of one, every request in flight and every entry collected by the sender
  // names packets of the part, no start is collected twice, and neither side
  // crashes: not on sequence number zero, not on lists of different length, not
  // on a slot outside the data.
  lemma CrossMachineWellFormed(p: Params, steps: seq<Step>)
    requires WellFormed(p)
    ensures var s := After(p, steps);
            && (forall d :: d in s.data ==> SenderMade(p, d))
            && (forall a :: a in s.control && !a.partFinished ==>
                  NamesPackets(a.missingSequenceNumbers, a.missingSequenceNumberOffsets, Count(p)))
            && NamesPackets(s.sender.wanted.nums, s.sender.wanted.offs, Count(p))
            && NoRepeats(s.sender.wanted.nums)
            && s.sender.phase != Crashed && s.receiver.phase != Dead
  {
    InvHolds(p, steps);
  }

  // In every reachable state, repeats and foreign datagrams included, the
  // receiver's slots hold the sender's bytes where a packet was stored and
  // their old bytes elsewhere, and its ledger is well shaped and balanced.
  lemma ReceiverSafety(p: Params, steps: seq<Step>)
    requires WellFormed(p)
    ensures var r := After(p, steps).receiver;
            && Holds(r.reader.rx.data, p.pl, p.src, p.before, StoredIn(r.arrivals))
            && r.reader.rx.ledger == GapLedger.Run(r.arrivals) && Shape(r.reader.rx.ledger)
            && r.reader.recvPackets + Total(r.reader.rx.ledger.offs)
               == r.reader.rx.ledger.highest + HighestRepeats(r.arrivals)
  {
    InvHolds(p, steps);
    var r := After(p, steps).receiver;
    DataSafety(p.before, p.pl, p.src, r.arrivals);
    ShapeOfRun(r.arrivals);
    Conservation(r.arrivals);
  }

  // Whatever the number of datagrams read, all n packets are stored exactly
  // when n of them were this part's and no number came twice.
  lemma AllStoredExactlyWithoutRepeats(pl: int, src: seq<byte>, arrivals: seq<int>, foreign: nat)
    requires pl >= 1 && FromSender(pl, src, arrivals)
    requires |arrivals| + foreign == PacketCount(pl, src)
    ensures StoredIn(arrivals) == Range(1, PacketCount(pl, src) + 1) <==> foreign == 0 && NoRepeats(arrivals)
  {
    var all := Range(1, PacketCount(pl, src) + 1);
    RangeSize(1, PacketCount(pl, src) + 1);
    Pigeonhole(arrivals);
    StoredArrived(arrivals);
    assert Elements(arrivals) <= all;
    if foreign == 0 && NoRepeats(arrivals) {
      NoRepeatsStoresAll(arrivals);
      SubsetOfSameSize(Elements(arrivals), all);
    }
    if StoredIn(arrivals) == all {
      assert Elements(arrivals) == all;
    }
  }

  lemma {:induction false} StoredArrived(arrivals: seq<int>)
    ensures StoredIn(arrivals) <= Elements(arrivals)
  {
    if |arrivals| > 0 {
      StoredArrived(arrivals[..|arrivals| - 1]);
      ElementsSplit(arrivals);
    }
  }

  lemma SubsetOfSameSize(a: set<int>, b: set<int>)
    requires a <= b && |a| == |b|
    ensures a == b
  {
    assert b == a + (b - a);
  }

  // End to end: when the sender has left the retransfer loop, ReadPart has
  // returned, having read exactly as many datagrams as the part has packets.
  // Every packet is then stored if and only if no number was delivered twice
  // and no foreign datagram was read; in that case the receiver's buffer equals
  // the sender's data and nothing is recorded missing.
  lemma EndToEnd(p: Params, steps: seq<Step>)
    requires WellFormed(p) && After(p, steps).sender.phase.Left?
    ensures var r := After(p, steps).receiver;
            && FinishWritten(After(p, steps))
            && (StoredIn(r.arrivals) == Range(1, Count(p) + 1) <==> r.foreign == 0 && NoRepeats(r.arrivals))
            && (r.foreign == 0 && NoRepeats(r.arrivals) ==>
                  r.reader == Reader(Rx(Ledger(Count(p), [], []), p.src), Count(p), []))
  {
    InvHolds(p, steps);
    var r := After(p, steps).receiver;
    AllStoredExactlyWithoutRepeats(p.pl, p.src, r.arrivals, r.foreign);
    if r.foreign == 0 && NoRepeats(r.arrivals) {
      CompleteTransfer(p, r.arrivals);
    }
  }

  lemma CompleteTransfer(p: Params, arrivals: seq<int>)
    requires WellFormed(p) && FromSender(p.pl, p.src, arrivals) && NoRepeats(arrivals)
    requires StoredIn(arrivals) == Range(1, Count(p) + 1)
    ensures StoreAll(Rx(FRESH, p.before), p.pl, p.src, arrivals) == Rx(Ledger(Count(p), [], []), p.src)
    ensures AcceptedCount(arrivals) == |arrivals|
  {
    DataSafety(p.before, p.pl, p.src, arrivals);
    AllStored(StoreAll(Rx(FRESH, p.before), p.pl, p.src, arrivals).data, p.pl, p.src, p.before, StoredIn(arrivals));
    NoRepeatsStoresAll(arrivals);
    CompleteRun(arrivals, Count(p));
    AllAccepted(arrivals);
  }

  // ------------------------------------------------------- a lost race

  // The finish packet was handled before the sender entered the loop, which
  // then sets its state again: nothing can end the loop any more.
  predicate Stranded(s: State)
  {
    && !s.sender.handling
    && (s.sender.phase.Writing? || s.sender.phase.Crashed?
        || ((s.sender.phase.AtLoopTest? || s.sender.phase.InRound?) && s.sender.retransferring))
  }

  lemma StrandedStep(p: Params, s: State, step: Step)
    requires WellFormed(p) && Stranded(s)
    ensures Stranded(Next(p, s, step))
  {
  }

  lemma {:induction false} StrandedForever(p: Params, s: State, steps: seq<Step>)
    requires WellFormed(p) && Stranded(s)
    ensures Stranded(RunFrom(p, s, steps)) && !RunFrom(p, s, steps).sender.phase.Left?
  {
    if |steps| > 0 {
      StrandedForever(p, s, steps[..|steps| - 1]);
      StrandedStep(p, RunFrom(p, s, steps[..|steps| - 1]), steps[|steps| - 1]);
    }
  }
}
