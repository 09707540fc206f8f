// What one received datagram does to a part (dataplane/partcontext.go:113-190),
// as a function, and what any run of datagrams leaves in the buffer.
module Reassembly {
  import opened Utils
  import opened Codec
  import opened Chunks
  import opened GapLedger

  // The receiving half of a part context.
  datatype Rx = Rx(ledger: Ledger, data: seq<byte>)

  // SliceBoundsPanic: the slot lies outside Data, which ends the program.
  datatype Outcome = Stored | MismatchingPartId | DuplicateRetransfer | SliceBoundsPanic

  datatype Received = Received(rx: Rx, outcome: Outcome)

  function ReceiveNumber(rx: Rx, pl: int, s: int, payload: seq<byte>): (r: Received)
    requires Parallel(rx.ledger)
    ensures Parallel(r.rx.ledger)
    ensures |r.rx.data| == |rx.data|
  {
    if Rejects(rx.ledger, s) then Received(rx, DuplicateRetransfer)
    else if !InRange(|rx.data|, pl, s - 1) then Received(rx, SliceBoundsPanic)
    else Received(Rx(Arrive(rx.ledger, s), SetChunk(rx.data, pl, s - 1, payload)), Stored)
  }

  // window: the bytes of the read buffer handed to DeSerializePacket.
  function Deliver(rx: Rx, partId: int, pl: int, window: seq<byte>): (r: Received)
    requires Parallel(rx.ledger) && |window| >= HEADER_LEN
    ensures Parallel(r.rx.ledger)
    ensures |r.rx.data| == |rx.data|
  {
    match Parse(window, partId)
    case Foreign => Received(rx, MismatchingPartId)
    case PartPacket(s, rest) => ReceiveNumber(rx, pl, s, rest)
  }

  // Filling a window of the read buffer with a datagram; a longer datagram is
  // cut off.
  function Overlay(window: seq<byte>, packet: seq<byte>): (w: seq<byte>)
    ensures |w| == |window|
  {
    var n := Min(|packet|, |window|);
    packet[..n] + window[n..]
  }

  function Zeros(n: nat): (s: seq<byte>)
    ensures |s| == n
  {
    seq(n, _ => 0)
  }

  // A datagram read into a zeroed window of max bytes.
  function Window(packet: seq<byte>, max: nat): (w: seq<byte>)
    ensures |w| == max
  {
    Overlay(Zeros(max), packet)
  }

  // What ReadPart keeps: the context, the count of stored packets, and the buffers
  // it has passed to the control plane's channel.
  datatype Reader = Reader(rx: Rx, recvPackets: int, rejected: seq<seq<byte>>)

  function ReadOne(r: Reader, partId: int, pl: int, window: seq<byte>): (r': Reader)
    requires Parallel(r.rx.ledger) && |window| >= HEADER_LEN
    ensures Parallel(r'.rx.ledger) && |r'.rx.data| == |r.rx.data|
  {
    var d := Deliver(r.rx, partId, pl, window);
    match d.outcome
    case Stored => Reader(d.rx, r.recvPackets + 1, r.rejected)
    case SliceBoundsPanic => r
    case _ => Reader(d.rx, r.recvPackets, r.rejected + [window])
  }

  // n reads that fill one window of the read buffer after the other; fewer when
  // the datagrams or the buffer run out.
  function ReadMany(r: Reader, partId: int, pl: int, buffer: seq<byte>, inbox: seq<seq<byte>>, max: nat,
                    n: nat): (r': Reader)
    requires Parallel(r.rx.ledger) && max >= HEADER_LEN
    ensures Parallel(r'.rx.ledger) && |r'.rx.data| == |r.rx.data|
    decreases n
  {
    if n == 0 || |buffer| < max || |inbox| == 0 then r
    else
      var next := ReadOne(r, partId, pl, Overlay(buffer[..max], inbox[0]));
      ReadMany(next, partId, pl, buffer[max..], inbox[1..], max, n - 1)
  }

  // The bytes that one read adds to ReadPart's count: those of a stored
  // datagram, its header included.
  function CountedBytes(r: Reader, partId: int, pl: int, window: seq<byte>, packet: seq<byte>): nat
    requires Parallel(r.rx.ledger) && |window| >= HEADER_LEN
  {
    if Deliver(r.rx, partId, pl, window).outcome == Stored then Min(|packet|, |window|) else 0
  }

  // The bytes that ReadMany's reads add.
  function CountedByMany(r: Reader, partId: int, pl: int, buffer: seq<byte>, inbox: seq<seq<byte>>, max: nat,
                         n: nat): nat
    requires Parallel(r.rx.ledger) && max >= HEADER_LEN
    decreases n
  {
    if n == 0 || |buffer| < max || |inbox| == 0 then 0
    else
      var window := Overlay(buffer[..max], inbox[0]);
      CountedBytes(r, partId, pl, window, inbox[0])
      + CountedByMany(ReadOne(r, partId, pl, window), partId, pl, buffer[max..], inbox[1..], max, n - 1)
  }

  // How a run of reads ends. ReadFailed: no datagram is left. ChannelFull: a
  // rejected buffer waits for room in the full channel, which nothing reads.
  datatype ReadStatus = ReadDone | ReadFailed | ChannelFull | Panicked

  const PACKET_CHAN_CAPACITY := 64

  function StatusOfOne(r: Reader, partId: int, pl: int, window: seq<byte>): ReadStatus
    requires Parallel(r.rx.ledger) && |window| >= HEADER_LEN
  {
    match Deliver(r.rx, partId, pl, window).outcome
    case Stored => ReadDone
    case SliceBoundsPanic => Panicked
    case _ => if |r.rejected| >= PACKET_CHAN_CAPACITY then ChannelFull else ReadDone
  }

  // The first read that is not done ends them all.
  function StatusOfMany(r: Reader, partId: int, pl: int, buffer: seq<byte>, inbox: seq<seq<byte>>, max: nat,
                        n: nat): ReadStatus
    requires Parallel(r.rx.ledger) && max >= HEADER_LEN
    decreases n
  {
    if n == 0 then ReadDone
    else if |buffer| < max || |inbox| == 0 then ReadFailed
    else
      var window := Overlay(buffer[..max], inbox[0]);
      if StatusOfOne(r, partId, pl, window) != ReadDone then StatusOfOne(r, partId, pl, window)
      else StatusOfMany(ReadOne(r, partId, pl, window), partId, pl, buffer[max..], inbox[1..], max, n - 1)
  }

  // The size of k windows of the read buffer.
  function Room(k: nat, max: nat): nat
  {
    if k == 0 then 0 else Room(k - 1, max) + max
  }

  lemma {:induction false} RoomIsProduct(k: nat, max: nat)
    ensures Room(k, max) == k * max
  {
    if k > 0 {
      RoomIsProduct(k - 1, max);
    }
  }

  // One read of several: what is left to do afterwards.
  lemma ReadManyNext(r: Reader, partId: int, pl: int, buffer: seq<byte>, inbox: seq<seq<byte>>, max: nat, n: nat,
                     next: Reader, bts: nat)
    returns (r': Reader, buffer': seq<byte>, inbox': seq<seq<byte>>, n': nat)
    requires Parallel(r.rx.ledger) && max >= HEADER_LEN && n > 0 && |buffer| == Room(n, max) && |inbox| > 0
    requires next == ReadOne(r, partId, pl, Overlay(buffer[..max], inbox[0]))
    requires bts == CountedBytes(r, partId, pl, Overlay(buffer[..max], inbox[0]), inbox[0])
    requires StatusOfOne(r, partId, pl, Overlay(buffer[..max], inbox[0])) == ReadDone
    ensures r' == next && buffer' == buffer[max..] && inbox' == inbox[1..] && n' == n - 1
    ensures |buffer'| == Room(n', max)
    ensures Parallel(r'.rx.ledger)
    ensures ReadMany(r', partId, pl, buffer', inbox', max, n') == ReadMany(r, partId, pl, buffer, inbox, max, n)
    ensures bts + CountedByMany(r', partId, pl, buffer', inbox', max, n')
         == CountedByMany(r, partId, pl, buffer, inbox, max, n)
    ensures StatusOfMany(r', partId, pl, buffer', inbox', max, n') == StatusOfMany(r, partId, pl, buffer, inbox, max, n)
  {
    r', buffer', inbox', n' := next, buffer[max..], inbox[1..], n - 1;
  }

  // ------------------------------------------------- packets of the sender

  predicate Sendable(partId: int, pl: int, src: seq<byte>)
  {
    && IsInt64(partId) && pl >= 1
    && IsInt64(|src|)
  }

  function PacketCount(pl: int, src: seq<byte>): nat
    requires pl >= 1
  {
    CeilDiv(|src|, pl)
  }

  // Sequence numbers are at most the number of bytes.
  lemma PacketCountIsInt64(pl: int, src: seq<byte>)
    requires pl >= 1 && IsInt64(|src|)
    ensures 0 <= PacketCount(pl, src) <= |src|
  {
    var n := PacketCount(pl, src);
    CeilDivIsCeiling(|src|, pl);
    if n >= 1 {
      ScaleMonotone(1, pl, n - 1);
    }
  }

  // The packet with number s of the part: header, then slot s-1 of the data.
  function PartPacketBytes(partId: int, pl: int, src: seq<byte>, s: int): (w: seq<byte>)
    requires Sendable(partId, pl, src) && 1 <= s <= PacketCount(pl, src)
    ensures |w| <= HEADER_LEN + pl
  {
    PacketCountIsInt64(pl, src);
    CeilingCovers(|src|, pl);
    assert InRange(|src|, pl, s - 1);
    Wire(partId, s, Chunk(src, pl, s - 1))
  }

  function SlotOf(pl: int, src: seq<byte>, s: int): (c: seq<byte>)
    requires pl >= 1 && 1 <= s <= PacketCount(pl, src)
    ensures InRange(|src|, pl, s - 1) && c == Chunk(src, pl, s - 1)
  {
    CeilingCovers(|src|, pl);
    assert InRange(|src|, pl, s - 1);
    Chunk(src, pl, s - 1)
  }

  // Storing packet s of the sender.
  function Store(rx: Rx, pl: int, src: seq<byte>, s: int): (r: Rx)
    requires Parallel(rx.ledger) && |rx.data| == |src|
    requires pl >= 1 && 1 <= s <= PacketCount(pl, src)
    ensures Parallel(r.ledger) && |r.data| == |src|
  {
    if Rejects(rx.ledger, s) then rx
    else
      var slot := SlotOf(pl, src, s);
      Rx(Arrive(rx.ledger, s), SetChunk(rx.data, pl, s - 1, slot))
  }

  // A sender's packet, whatever the state of the receiver, is either turned
  // away or stored in its own slot; it is never foreign and never panics.
  lemma DeliverSenderPacket(rx: Rx, partId: int, pl: int, src: seq<byte>, s: int, max: nat)
    requires Parallel(rx.ledger) && |rx.data| == |src|
    requires Sendable(partId, pl, src) && 1 <= s <= PacketCount(pl, src)
    requires max >= HEADER_LEN + pl
    ensures Deliver(rx, partId, pl, Window(PartPacketBytes(partId, pl, src, s), max))
         == Received(Store(rx, pl, src, s), if Rejects(rx.ledger, s) then DuplicateRetransfer else Stored)
  {
    var slot := SlotOf(pl, src, s);
    PacketCountIsInt64(pl, src);
    var pad := Zeros(max)[|PartPacketBytes(partId, pl, src, s)|..];
    var window := Window(PartPacketBytes(partId, pl, src, s), max);
    assert window == Wire(partId, s, slot + pad);
    HeaderRoundTrip(partId, s, slot + pad, partId);
    assert (slot + pad)[..|slot|] == slot[..|slot|];
  }

  // The first n packets that WritePart sends for a fresh context.
  function PartPackets(partId: int, pl: int, src: seq<byte>, n: nat): (r: seq<seq<byte>>)
    requires Sendable(partId, pl, src) && n <= PacketCount(pl, src)
    ensures |r| == n
  {
    if n == 0 then [] else PartPackets(partId, pl, src, n - 1) + [PartPacketBytes(partId, pl, src, n)]
  }

  lemma {:induction false} PartPacketsAt(partId: int, pl: int, src: seq<byte>, n: nat, i: nat)
    requires Sendable(partId, pl, src) && i < n <= PacketCount(pl, src)
    ensures PartPackets(partId, pl, src, n)[i] == PartPacketBytes(partId, pl, src, i + 1)
  {
    if i < n - 1 {
      PartPacketsAt(partId, pl, src, n - 1, i);
    }
  }

  // What WritePart sends in all: the data, and a header for each packet.
  lemma {:induction false} PartBytes(partId: int, pl: int, src: seq<byte>, n: nat)
    requires Sendable(partId, pl, src) && n <= PacketCount(pl, src)
    ensures |Flatten(PartPackets(partId, pl, src, n))| == Min(n * pl, |src|) + 16 * n
  {
    if n > 0 {
      PartBytes(partId, pl, src, n - 1);
      OnePacketMore(partId, pl, src, n);
    }
  }

  lemma OnePacketMore(partId: int, pl: int, src: seq<byte>, n: nat)
    requires Sendable(partId, pl, src) && 0 < n <= PacketCount(pl, src)
    ensures |PartPacketBytes(partId, pl, src, n)| == Min(n * pl, |src|) - Min((n - 1) * pl, |src|) + 16
    ensures Flatten(PartPackets(partId, pl, src, n))
         == Flatten(PartPackets(partId, pl, src, n - 1)) + PartPacketBytes(partId, pl, src, n)
  {
    var slot := SlotOf(pl, src, n);
    NextWindow(pl, n - 1);
    PacketCountIsInt64(pl, src);
    assert PartPackets(partId, pl, src, n)[..n - 1] == PartPackets(partId, pl, src, n - 1);
  }

  // The numbers that a ledger entry, or a list of entries, asks for again.
  function EntryNumbers(v: int, off: nat): (r: seq<int>)
    ensures |r| == off
    ensures forall j :: 0 <= j < off ==> r[j] == v + j
  {
    if off == 0 then [] else EntryNumbers(v, off - 1) + [v + off - 1]
  }

  // The first n entries name only packets of the part.
  ghost predicate GoodUpTo(nums: seq<int>, offs: seq<int>, count: int, n: nat)
  {
    && n <= |nums| && n <= |offs|
    && forall k :: 0 <= k < n ==> 1 <= nums[k] && 1 <= offs[k] && nums[k] + offs[k] - 1 <= count
  }

  ghost predicate NamesPackets(nums: seq<int>, offs: seq<int>, count: int)
  {
    |nums| == |offs| && GoodUpTo(nums, offs, count, |nums|)
  }

  predicate NumbersInPart(numbers: seq<int>, count: int)
  {
    forall i :: 0 <= i < |numbers| ==> 1 <= numbers[i] <= count
  }

  // The numbers that the first n entries ask for.
  ghost function RetransferNumbers(nums: seq<int>, offs: seq<int>, count: int, n: nat): (r: seq<int>)
    requires GoodUpTo(nums, offs, count, n)
    ensures NumbersInPart(r, count)
  {
    if n == 0 then [] else RetransferNumbers(nums, offs, count, n - 1) + EntryNumbers(nums[n - 1], offs[n - 1])
  }

  // ------------------------------------------------------ the retransfer loop

  // Slots 0..Slots-1 can be sliced out of the data: those of the packets, and an
  // empty one behind them when the last packet is full.
  function Slots(len: nat, pl: int): (n: nat)
    requires pl >= 1
  {
    Min(SlotStarts(len, pl), 0x7FFF_FFFF_FFFF_FFFF)
  }

  // How many multiples of pl are at most len, zero included.
  function SlotStarts(len: nat, pl: int): (n: nat)
    requires pl >= 1
  {
    if len < pl then 1 else 1 + SlotStarts(len - pl, pl)
  }

  lemma {:induction false} SlotStartsExactly(len: nat, pl: int, i: int)
    requires pl >= 1
    ensures 0 <= i < SlotStarts(len, pl) <==> 0 <= i * pl <= len
    decreases len
  {
    if i <= 0 {
      ScaleMonotone(i, if i < 0 then -1 else 0, pl);
    } else if len < pl {
      ScaleMonotone(1, i, pl);
    } else {
      SlotStartsExactly(len - pl, pl, i - 1);
      NextWindow(pl, i - 1);
      ScaleMonotone(0, i - 1, pl);
    }
  }

  lemma SlotsExactlyInRange(len: nat, pl: int, s: int)
    requires pl >= 1
    ensures 1 <= s <= Slots(len, pl) <==> InRange(len, pl, s - 1) && IsInt64(s)
  {
    SlotStartsExactly(len, pl, s - 1);
  }

  lemma PacketsHaveSlots(pl: int, src: seq<byte>)
    requires pl >= 1 && IsInt64(|src|)
    ensures PacketCount(pl, src) <= Slots(|src|, pl)
  {
    var n := PacketCount(pl, src);
    PacketCountIsInt64(pl, src);
    if n >= 1 {
      CeilingCovers(|src|, pl);
      assert InRange(|src|, pl, n - 1);
      SlotsExactlyInRange(|src|, pl, n);
    }
  }

  // What the retransfer loop sends for number s.
  function AgainPacket(partId: int, pl: int, src: seq<byte>, s: int): seq<byte>
    requires Sendable(partId, pl, src) && 1 <= s <= Slots(|src|, pl)
  {
    SlotsExactlyInRange(|src|, pl, s);
    Wire(partId, s, Chunk(src, pl, s - 1))
  }

  function AgainPackets(partId: int, pl: int, src: seq<byte>, numbers: seq<int>): (r: seq<seq<byte>>)
    requires Sendable(partId, pl, src) && NumbersInPart(numbers, Slots(|src|, pl))
    ensures |r| == |numbers|
  {
    seq(|numbers|, i requires 0 <= i < |numbers| => AgainPacket(partId, pl, src, numbers[i]))
  }

  lemma AgainPacketsAt(partId: int, pl: int, src: seq<byte>, numbers: seq<int>, i: nat)
    requires Sendable(partId, pl, src) && NumbersInPart(numbers, Slots(|src|, pl)) && i < |numbers|
    ensures AgainPackets(partId, pl, src, numbers)[i] == AgainPacket(partId, pl, src, numbers[i])
  {
  }

  lemma AgainPacketsConcat(partId: int, pl: int, src: seq<byte>, a: seq<int>, b: seq<int>)
    requires Sendable(partId, pl, src)
    requires NumbersInPart(a, Slots(|src|, pl)) && NumbersInPart(b, Slots(|src|, pl))
    ensures NumbersInPart(a + b, Slots(|src|, pl))
    ensures AgainPackets(partId, pl, src, a + b) == AgainPackets(partId, pl, src, a) + AgainPackets(partId, pl, src, b)
  {
  }

  // Fatal: log.Fatal. OutOfBounds: a slot outside the data, which panics.
  datatype RoundStatus = RoundDone | Fatal | OutOfBounds

  // The numbers that a pass comes to, and how it ends if every write succeeds.
  datatype Pass = Pass(numbers: seq<int>, end: RoundStatus)

  // How many numbers of an entry have a slot, counted from its start.
  function Reach(v: int, off: int, slots: nat): (m: nat)
    ensures m > 0 ==> m <= off && 1 <= v && v + m - 1 <= slots
  {
    if v < 1 || off <= 0 || slots < v then 0 else Min(off, slots - v + 1)
  }

  // A pass from entry i on: a start of zero is fatal, a missing offset ends the
  // pass, and a number without a slot panics.
  function PassFrom(nums: seq<int>, offs: seq<int>, slots: nat, i: nat): (r: Pass)
    requires i <= |nums|
    ensures NumbersInPart(r.numbers, slots)
    decreases |nums| - i
  {
    if i == |nums| then Pass([], RoundDone)
    else if nums[i] == 0 then Pass([], Fatal)
    else if i >= |offs| then Pass([], RoundDone)
    else
      var m := Reach(nums[i], offs[i], slots);
      if m < offs[i] then Pass(EntryNumbers(nums[i], m), OutOfBounds)
      else
        var rest := PassFrom(nums, offs, slots, i + 1);
        Pass(EntryNumbers(nums[i], m) + rest.numbers, rest.end)
  }

  // Entry k has an offset and a start other than zero, and all its numbers have
  // slots.
  predicate Fits(nums: seq<int>, offs: seq<int>, slots: nat, k: nat)
    requires k < |nums|
  {
    && nums[k] != 0 && k < |offs|
    && (offs[k] <= 0 || (1 <= nums[k] && nums[k] + offs[k] - 1 <= slots))
  }

  // The numbers of entries i..stop.
  function Named(nums: seq<int>, offs: seq<int>, i: nat, stop: nat): seq<int>
    requires i <= stop <= |nums| && stop <= |offs|
    decreases stop - i
  {
    if i == stop then [] else EntryNumbers(nums[i], if offs[i] < 0 then 0 else offs[i]) + Named(nums, offs, i + 1, stop)
  }

  // A pass sends the numbers of the entries before the first that does not fit. It
  // is fatal exactly at a start of zero, ends at a missing offset, and otherwise
  // panics behind the numbers of that entry that have slots.
  lemma {:induction false} PassExactly(nums: seq<int>, offs: seq<int>, slots: nat, i: nat) returns (stop: nat)
    requires i <= |nums|
    ensures i <= stop <= |nums| && (forall k :: i <= k < stop ==> Fits(nums, offs, slots, k))
    ensures stop == i || stop <= |offs|
    ensures stop < |nums| ==> !Fits(nums, offs, slots, stop)
    ensures var pass := PassFrom(nums, offs, slots, i);
            && pass.end == (if stop == |nums| then RoundDone
                            else if nums[stop] == 0 then Fatal
                            else if stop >= |offs| then RoundDone
                            else OutOfBounds)
            && (stop > |offs| ==> pass.numbers == [])
            && (stop <= |offs| && pass.end != OutOfBounds ==> pass.numbers == Named(nums, offs, i, stop))
            && (pass.end == OutOfBounds && !(1 <= nums[stop] <= slots) ==> pass.numbers == Named(nums, offs, i, stop))
            && (pass.end == OutOfBounds && 1 <= nums[stop] <= slots ==>
                  pass.numbers == Named(nums, offs, i, stop) + EntryNumbers(nums[stop], slots - nums[stop] + 1))
    decreases |nums| - i
  {
    stop := i;
    if i < |nums| && Fits(nums, offs, slots, i) {
      stop := PassExactly(nums, offs, slots, i + 1);
      if stop < |nums| && stop < |offs| && nums[stop] != 0 && 1 <= nums[stop] <= slots {
        AddsUp(EntryNumbers(nums[i], Reach(nums[i], offs[i], slots)), Named(nums, offs, i + 1, stop),
               EntryNumbers(nums[stop], slots - nums[stop] + 1));
      }
    }
  }

  // Over lists that name packets only, a pass comes to all their numbers.
  lemma {:induction false} PassOfNamed(nums: seq<int>, offs: seq<int>, count: nat, slots: nat, i: nat)
    requires NamesPackets(nums, offs, count) && count <= slots && i <= |nums|
    ensures PassFrom(nums, offs, slots, i).end == RoundDone
    ensures RetransferNumbers(nums, offs, count, i) + PassFrom(nums, offs, slots, i).numbers
         == RetransferNumbers(nums, offs, count, |nums|)
    decreases |nums| - i
  {
    if i < |nums| {
      PassOfNamed(nums, offs, count, slots, i + 1);
      AddsUp(RetransferNumbers(nums, offs, count, i), EntryNumbers(nums[i], offs[i]),
             PassFrom(nums, offs, slots, i + 1).numbers);
    }
  }

  lemma AddsUp<T>(a: seq<T>, b: seq<T>, c: seq<T>)
    ensures a + (b + c) == a + b + c
  {
  }

  // Whatever entries the sender was asked for, each packet it sends again is,
  // byte for byte, the one that WritePart sent with that number.
  lemma RetransfersReproduceOriginals(partId: int, pl: int, src: seq<byte>, nums: seq<int>, offs: seq<int>)
    requires Sendable(partId, pl, src) && NamesPackets(nums, offs, PacketCount(pl, src))
    ensures var pass := PassFrom(nums, offs, Slots(|src|, pl), 0);
            var again := AgainPackets(partId, pl, src, pass.numbers);
            var originals := PartPackets(partId, pl, src, PacketCount(pl, src));
            && pass == Pass(RetransferNumbers(nums, offs, PacketCount(pl, src), |nums|), RoundDone)
            && forall i :: 0 <= i < |again| ==> again[i] == originals[pass.numbers[i] - 1]
  {
    PacketsHaveSlots(pl, src);
    PassOfNamed(nums, offs, PacketCount(pl, src), Slots(|src|, pl), 0);
    var pass := PassFrom(nums, offs, Slots(|src|, pl), 0);
    assert [] + pass.numbers == pass.numbers;
    EachAgainIsOriginal(partId, pl, src, pass.numbers, PacketCount(pl, src));
  }

  lemma EachAgainIsOriginal(partId: int, pl: int, src: seq<byte>, numbers: seq<int>, n: nat)
    requires Sendable(partId, pl, src) && n == PacketCount(pl, src) <= Slots(|src|, pl) && NumbersInPart(numbers, n)
    ensures forall i :: 0 <= i < |numbers| ==>
              AgainPackets(partId, pl, src, numbers)[i] == PartPackets(partId, pl, src, n)[numbers[i] - 1]
  {
    forall i | 0 <= i < |numbers|
      ensures AgainPackets(partId, pl, src, numbers)[i] == PartPackets(partId, pl, src, n)[numbers[i] - 1]
    {
      AgainPacketsAt(partId, pl, src, numbers, i);
      PartPacketsAt(partId, pl, src, n, numbers[i] - 1);
    }
  }

  lemma SenderPacketParses(partId: int, pl: int, src: seq<byte>, s: int, max: nat)
    requires Sendable(partId, pl, src) && 1 <= s <= PacketCount(pl, src) && max >= HEADER_LEN + pl
    ensures var q := Parse(Window(PartPacketBytes(partId, pl, src, s), max), partId);
            q.PartPacket? && q.seqNum == s
  {
    var slot := SlotOf(pl, src, s);
    PacketCountIsInt64(pl, src);
    var pad := Zeros(max)[|PartPacketBytes(partId, pl, src, s)|..];
    assert Window(PartPacketBytes(partId, pl, src, s), max) == Wire(partId, s, slot + pad);
    HeaderRoundTrip(partId, s, slot + pad, partId);
  }

  // -------------------------------------------------------- runs of packets

  ghost predicate FromSender(pl: int, src: seq<byte>, arrivals: seq<int>)
    requires pl >= 1
  {
    forall k :: 0 <= k < |arrivals| ==> 1 <= arrivals[k] <= PacketCount(pl, src)
  }

  function StoreAll(rx: Rx, pl: int, src: seq<byte>, arrivals: seq<int>): (r: Rx)
    requires Parallel(rx.ledger) && |rx.data| == |src|
    requires pl >= 1 && FromSender(pl, src, arrivals)
    ensures Parallel(r.ledger) && |r.data| == |src|
  {
    if |arrivals| == 0 then rx
    else Store(StoreAll(rx, pl, src, arrivals[..|arrivals| - 1]), pl, src, arrivals[|arrivals| - 1])
  }

  // The slots of a buffer hold the sender's bytes where a packet was stored and
  // the buffer's earlier bytes elsewhere.
  ghost predicate Holds(data: seq<byte>, pl: int, src: seq<byte>, before: seq<byte>, stored: set<int>)
    requires pl >= 1
  {
    && |data| == |src| == |before|
    && (forall i :: 0 <= i < PacketCount(pl, src) && InRange(|src|, pl, i) ==>
          Chunk(data, pl, i) == Chunk(if i + 1 in stored then src else before, pl, i))
  }

  lemma StoreHolds(rx: Rx, pl: int, src: seq<byte>, before: seq<byte>, stored: set<int>, s: int)
    requires Parallel(rx.ledger) && pl >= 1 && 1 <= s <= PacketCount(pl, src)
    requires Holds(rx.data, pl, src, before, stored)
    ensures Holds(Store(rx, pl, src, s).data, pl, src, before, stored + if Rejects(rx.ledger, s) then {} else {s})
  {
    if !Rejects(rx.ledger, s) {
      var slot := SlotOf(pl, src, s);
      var r := SetChunk(rx.data, pl, s - 1, slot);
      forall i | 0 <= i < PacketCount(pl, src) && InRange(|src|, pl, i)
        ensures Chunk(r, pl, i) == Chunk(if i + 1 in stored + {s} then src else before, pl, i)
      {
        GetAfterSet(rx.data, pl, s - 1, i, slot);
      }
    }
  }

  // Any loss, repetition and reordering of sender-made packets: every stored
  // number's slot equals the sender's, and every other slot is untouched.
  lemma {:induction false} DataSafety(before: seq<byte>, pl: int, src: seq<byte>, arrivals: seq<int>)
    requires |before| == |src| && pl >= 1 && FromSender(pl, src, arrivals)
    ensures var r := StoreAll(Rx(FRESH, before), pl, src, arrivals);
            r.ledger == Run(arrivals) && Holds(r.data, pl, src, before, StoredIn(arrivals))
  {
    if |arrivals| > 0 {
      var n := |arrivals| - 1;
      DataSafety(before, pl, src, arrivals[..n]);
      var rx := StoreAll(Rx(FRESH, before), pl, src, arrivals[..n]);
      StoreHolds(rx, pl, src, before, StoredIn(arrivals[..n]), arrivals[n]);
    }
  }

  // Every slot stored means every byte stored.
  lemma AllStored(data: seq<byte>, pl: int, src: seq<byte>, before: seq<byte>, stored: set<int>)
    requires pl >= 1 && Holds(data, pl, src, before, stored)
    requires Range(1, PacketCount(pl, src) + 1) <= stored
    ensures data == src
  {
    forall i | 0 <= i < PacketCount(pl, src) && InRange(|data|, pl, i) ensures Chunk(data, pl, i) == Chunk(src, pl, i) {
      assert i + 1 in Range(1, PacketCount(pl, src) + 1);
    }
    EqualChunksEqualData(data, src, pl);
  }
}
