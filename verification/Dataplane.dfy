// Sending and receiving parts and single packets over a datagram connection
// (dataplane/dataplane.go).
module Dataplane {
  import opened Utils
  import opened Codec
  import opened Chunks
  import opened Reassembly
  import opened ReadOutcomes
  import opened PartContexts

  const PACKET_SIZE := 1400
  const PACKET_PAYLOAD_SIZE := 1200

  // A datagram socket: what was written to it, what can still be read from it,
  // and after how many more writes it fails. A read fails when nothing is left.
  class Conn {
    var sent: seq<seq<byte>>
    var inbox: seq<seq<byte>>
    var writesLeft: nat

    constructor (inbox: seq<seq<byte>>, writesLeft: nat)
      ensures sent == [] && this.inbox == inbox && this.writesLeft == writesLeft
    {
      this.sent, this.inbox, this.writesLeft := [], inbox, writesLeft;
    }

    method Write(data: seq<byte>) returns (n: nat, ok: bool)
      modifies this`sent, this`writesLeft
      ensures ok == (old(writesLeft) > 0)
      ensures if ok then n == |data| && sent == old(sent) + [data] && writesLeft == old(writesLeft) - 1
              else n == 0 && sent == old(sent) && writesLeft == 0
    {
      if writesLeft == 0 {
        return 0, false;
      }
      writesLeft := writesLeft - 1;
      sent := sent + [data];
      return |data|, true;
    }

    method Read(buf: array<byte>, lo: nat, hi: nat) returns (n: nat, ok: bool)
      requires lo <= hi <= buf.Length
      modifies this`inbox, buf
      ensures ok == (|old(inbox)| > 0)
      ensures ok ==> inbox == old(inbox)[1..] && n == Min(|old(inbox)[0]|, hi - lo)
                     && buf[..] == old(buf[..])[..lo] + Overlay(old(buf[lo..hi]), old(inbox)[0]) + old(buf[..])[hi..]
      ensures !ok ==> inbox == old(inbox) && n == 0 && buf[..] == old(buf[..])
    {
      if |inbox| == 0 {
        return 0, false;
      }
      var packet := inbox[0];
      inbox := inbox[1..];
      n := Min(|packet|, hi - lo);
      OverlayInPlace(buf[..], lo, hi, packet);
      CopyInto(buf, lo, hi, packet);
      return n, true;
    }
  }

  datatype State = Sending | Retransfer | Pending | Receiving

  class SCIONDataplane {
    const conn: Conn
    var state: State
    var packetChan: seq<seq<byte>>

    constructor (conn: Conn)
      ensures this.conn == conn && state == Pending && packetChan == []
    {
      this.conn := conn;
      state, packetChan := Pending, [];
    }

    method SetState(s: State)
      modifies this`state
      ensures state == s
    {
      state := s;
    }

    // Sends the packets of the part in order. On an error the packets before
    // the failing one have been sent.
    method WritePart(bc: PartContext) returns (n: nat, ok: bool)
      requires bc.Prepared() && bc.currentSequenceNumber == 0
      modifies conn, bc`currentSequenceNumber
      ensures var all := PartPackets(bc.partId, bc.payloadLength, bc.data[..], bc.numPackets);
              && ok == (old(conn.writesLeft) >= |all|)
              && conn.sent == old(conn.sent) + all[..if ok then |all| else old(conn.writesLeft)]
              && n == if ok then |Flatten(all)| else 0
      ensures ok ==> bc.currentSequenceNumber == bc.numPackets && n == bc.data.Length + 16 * bc.numPackets
    {
      n := 0;
      WholePartBytes(bc.partId, bc.payloadLength, bc.data[..]);
      PacketCountIsInt64(bc.payloadLength, bc.data[..]);
      ghost var all := PartPackets(bc.partId, bc.payloadLength, bc.data[..], bc.numPackets);
      ghost var sent, writes := conn.sent, conn.writesLeft;
      var i := 0;
      while i < bc.numPackets
        invariant 0 <= i <= bc.numPackets == |all|
        invariant bc.currentSequenceNumber == i
        invariant conn.writesLeft == writes - i
        invariant conn.sent == sent + all[..i] && n == |Flatten(all[..i])|
      {
        var bts, err := WritePacket(bc, i, all);
        if !err {
          return 0, false;
        }
        WrittenOneMore(sent, all, i);
        n := n + bts;
        i := i + 1;
      }
      assert all[..|all|] == all;
      ok := true;
    }

    // The body of the loop in WritePart.
    method WritePacket(bc: PartContext, i: nat, ghost all: seq<seq<byte>>) returns (n: nat, ok: bool)
      requires bc.Prepared() && bc.currentSequenceNumber == i < bc.numPackets
      requires all == PartPackets(bc.partId, bc.payloadLength, bc.data[..], bc.numPackets)
      modifies conn, bc`currentSequenceNumber
      ensures bc.currentSequenceNumber == i + 1
      ensures ok == (old(conn.writesLeft) > 0)
      ensures if ok then
                n == |all[i]| && conn.sent == old(conn.sent) + [all[i]] && conn.writesLeft == old(conn.writesLeft) - 1
              else conn.sent == old(conn.sent) && conn.writesLeft == 0
    {
      ghost var src := bc.data[..];
      PartPacketsAt(bc.partId, bc.payloadLength, src, bc.numPackets, i);
      PacketCountIsInt64(bc.payloadLength, src);
      ghost var slot := SlotOf(bc.payloadLength, src, i + 1);
      var payload := bc.GetPayloadByPacketIndex(i);
      var buf := BufferFor(payload);
      bc.Pack(buf);
      n, ok := conn.Write(buf[..]);
    }

    // What one pass over the entries does, given how many writes succeed: the
    // numbers it comes to are sent again, as far as the writes go.
    ghost predicate PassResult(bc: PartContext, nums: seq<int>, offs: seq<int>, before: seq<seq<byte>>, writes: nat,
                               after: seq<seq<byte>>, status: RoundStatus)
      requires bc.Prepared()
      reads bc`payloadLength, bc`numPackets, bc.data
    {
      var pass := PassFrom(nums, offs, Slots(bc.data.Length, bc.payloadLength), 0);
      var sent := Min(writes, |pass.numbers|);
      && status == (if writes < |pass.numbers| then Fatal else pass.end)
      && after == before + AgainPackets(bc.partId, bc.payloadLength, bc.data[..], pass.numbers[..sent])
    }

    // One pass of the retransfer loop over the entries requested so far.
    method RetransferRound(bc: PartContext) returns (status: RoundStatus)
      requires bc.Prepared()
      modifies conn, bc`missingSequenceNums, bc`missingSequenceNumOffsets
      ensures PassResult(bc, old(bc.missingSequenceNums), old(bc.missingSequenceNumOffsets),
                         old(conn.sent), old(conn.writesLeft), conn.sent, status)
      ensures status == RoundDone ==> bc.missingSequenceNums == [] && bc.missingSequenceNumOffsets == []
    {
      ghost var slots := Slots(bc.data.Length, bc.payloadLength);
      ghost var pass := PassFrom(bc.missingSequenceNums, bc.missingSequenceNumOffsets, slots, 0);
      ghost var done;
      status, done := RetransferEntries(bc, bc.missingSequenceNums, bc.missingSequenceNumOffsets, slots, pass);
      if status == RoundDone {
        bc.missingSequenceNums, bc.missingSequenceNumOffsets := [], [];
      }
    }

    // The loop over the entries; done are the numbers that were sent.
    method RetransferEntries(bc: PartContext, nums: seq<int>, offs: seq<int>, ghost slots: nat, ghost pass: Pass)
      returns (status: RoundStatus, ghost done: seq<int>)
      requires bc.Prepared() && slots == Slots(bc.data.Length, bc.payloadLength)
      requires pass == PassFrom(nums, offs, slots, 0)
      modifies conn
      ensures PassEnds(pass, old(conn.writesLeft), done, status) && NumbersInPart(done, slots)
      ensures conn.sent == old(conn.sent) + AgainPackets(bc.partId, bc.payloadLength, bc.data[..], done)
    {
      ghost var sent, writes := conn.sent, conn.writesLeft;
      done := PassBegins(nums, offs, slots, pass);
      var i := 0;
      while i < |nums|
        invariant 0 <= i <= |nums| && PassStands(nums, offs, slots, i, done, pass)
        invariant |done| <= writes && conn.writesLeft == writes - |done|
        invariant NumbersInPart(done, slots)
        invariant conn.sent == sent + AgainPackets(bc.partId, bc.payloadLength, bc.data[..], done)
      {
        if nums[i] == 0 {
          PassStops(nums, offs, slots, i, done, pass, writes);
          return Fatal, done;
        }
        if i >= |offs| {
          break;
        }
        status, done := PassEntry(bc, nums, offs, i, slots, done, pass, sent, writes);
        if status != RoundDone {
          return;
        }
        i := i + 1;
      }
      PassStops(nums, offs, slots, i, done, pass, writes);
      status := RoundDone;
    }

    // The body of the loop over the entries, with the numbers in done sent.
    method PassEntry(bc: PartContext, nums: seq<int>, offs: seq<int>, i: nat, ghost slots: nat, ghost done: seq<int>,
                     ghost pass: Pass, ghost sent: seq<seq<byte>>, ghost writes: nat)
      returns (status: RoundStatus, ghost now: seq<int>)
      requires bc.Prepared() && slots == Slots(bc.data.Length, bc.payloadLength)
      requires i < |nums| && i < |offs| && nums[i] != 0 && PassStands(nums, offs, slots, i, done, pass)
      requires |done| <= writes && conn.writesLeft == writes - |done| && NumbersInPart(done, slots)
      requires conn.sent == sent + AgainPackets(bc.partId, bc.payloadLength, bc.data[..], done)
      modifies conn
      ensures |now| <= writes && conn.writesLeft == writes - |now| && NumbersInPart(now, slots)
      ensures conn.sent == sent + AgainPackets(bc.partId, bc.payloadLength, bc.data[..], now)
      ensures if status == RoundDone
              then PassStands(nums, offs, slots, i + 1, now, pass)
              else PassEnds(pass, writes, now, status)
    {
      ghost var src, before := bc.data[..], conn.sent;
      ghost var entry := PassGoesOn(nums, offs, slots, i, done, pass, conn.writesLeft);
      status := RetransferEntry(bc, nums[i], offs[i]);
      ResentOneMore(sent, before, conn.sent, bc.partId, bc.payloadLength, src, done, entry);
      now := done + entry;
    }

    // The inner loop: packets v, v+1, ... of one entry, as far as there are slots
    // and writes.
    method RetransferEntry(bc: PartContext, v: int, off: int) returns (status: RoundStatus)
      requires bc.Prepared()
      modifies conn
      ensures var m := Reach(v, off, Slots(bc.data.Length, bc.payloadLength));
              var sent := Min(old(conn.writesLeft), m);
              && status == (if sent < m then Fatal else if m < off then OutOfBounds else RoundDone)
              && conn.writesLeft == old(conn.writesLeft) - sent
              && conn.sent == old(conn.sent)
                            + AgainPackets(bc.partId, bc.payloadLength, bc.data[..], EntryNumbers(v, sent))
    {
      ghost var id, pl, src, sent, writes := bc.partId, bc.payloadLength, bc.data[..], conn.sent, conn.writesLeft;
      ghost var m := Reach(v, off, Slots(|src|, pl));
      var j := 0;
      while j < off
        invariant 0 <= j <= m && j <= writes && conn.writesLeft == writes - j
        invariant conn.sent == sent + AgainPackets(id, pl, src, EntryNumbers(v, j))
      {
        ghost var before := conn.sent;
        status := RetransferPacket(bc, v + j);
        if status != RoundDone {
          return;
        }
        EntryOneMore(sent, before, conn.sent, id, pl, src, v, j);
        j := j + 1;
      }
      status := RoundDone;
    }

    method RetransferPacket(bc: PartContext, s: int) returns (status: RoundStatus)
      requires bc.Prepared()
      modifies conn
      ensures if !(1 <= s <= Slots(bc.data.Length, bc.payloadLength)) then
                status == OutOfBounds && conn.sent == old(conn.sent) && conn.writesLeft == old(conn.writesLeft)
              else if old(conn.writesLeft) == 0 then
                status == Fatal && conn.sent == old(conn.sent) && conn.writesLeft == 0
              else
                && status == RoundDone && conn.writesLeft == old(conn.writesLeft) - 1
                && conn.sent == old(conn.sent) + [AgainPacket(bc.partId, bc.payloadLength, bc.data[..], s)]
    {
      SlotsExactlyInRange(bc.data.Length, bc.payloadLength, s);
      if !InRange(bc.data.Length, bc.payloadLength, s - 1) || !IsInt64(s) {
        return OutOfBounds;
      }
      var packet := bc.GetPayloadByPacketIndex(s - 1);
      var buf := BufferFor(packet);
      bc.PackRetransfer(buf, s);
      var bts, ok := conn.Write(buf[..]);
      status := if ok then RoundDone else Fatal;
    }

    // Reads one datagram per packet of the part, whatever becomes of each.
    method ReadPart(bc: PartContext) returns (n: nat, status: ReadStatus)
      requires bc.Prepared() && bc.Sized() && bc.Paired()
      requires bc.buffer.Length == bc.recommendedBufferSize && bc.buffer != bc.data
      modifies this`packetChan, conn
      modifies bc`highestSequenceNumber, bc`missingSequenceNums, bc`missingSequenceNumOffsets, bc`recvPackets
      modifies bc.data, bc.buffer
      ensures bc.Paired()
      ensures status == ReadDone || status == ReadFailed ==>
                View(bc) == ReadMany(old(View(bc)), bc.partId, bc.payloadLength,
                                     old(bc.buffer[..]), old(conn.inbox), bc.maxPacketLength, bc.numPackets)
      ensures status == StatusOfMany(old(View(bc)), bc.partId, bc.payloadLength,
                                     old(bc.buffer[..]), old(conn.inbox), bc.maxPacketLength, bc.numPackets)
      ensures status == ReadDone ==>
                bc.numPackets <= |old(conn.inbox)| && conn.inbox == old(conn.inbox)[bc.numPackets..]
      ensures status == ReadFailed ==> |old(conn.inbox)| < bc.numPackets && conn.inbox == []
      ensures n == if status != ReadDone then 0
                   else CountedByMany(old(View(bc)), bc.partId, bc.payloadLength,
                                      old(bc.buffer[..]), old(conn.inbox), bc.maxPacketLength, bc.numPackets)
      ensures var o := Outcomes(old(View(bc)), bc.partId, bc.payloadLength,
                                old(bc.buffer[..]), old(conn.inbox), bc.maxPacketLength, bc.numPackets);
              && (|old(packetChan)| <= 64 ==> EndsAs(status, o, bc.numPackets, 64 - |old(packetChan)|))
              && (status == ReadDone ==>
                    Explains(o, old(View(bc)), View(bc), old(bc.buffer[..]), old(conn.inbox), bc.maxPacketLength, n))
    {
      RoomIsProduct(bc.numPackets, bc.maxPacketLength);
      ReadsByOutcomes(View(bc), bc.partId, bc.payloadLength, bc.buffer[..], conn.inbox, bc.maxPacketLength,
                      bc.numPackets);
      n, status := ReadPackets(bc);
    }

    // The loop of ReadPart.
    method ReadPackets(bc: PartContext) returns (n: nat, status: ReadStatus)
      requires bc.Paired() && bc.buffer != bc.data && bc.maxPacketLength >= HEADER_LEN
      requires bc.numPackets >= 0 && bc.buffer.Length == Room(bc.numPackets, bc.maxPacketLength)
      modifies this`packetChan, conn
      modifies bc`highestSequenceNumber, bc`missingSequenceNums, bc`missingSequenceNumOffsets, bc`recvPackets
      modifies bc.data, bc.buffer
      ensures bc.Paired()
      ensures status == ReadDone || status == ReadFailed ==>
                View(bc) == ReadMany(old(View(bc)), bc.partId, bc.payloadLength,
                                     old(bc.buffer[..]), old(conn.inbox), bc.maxPacketLength, bc.numPackets)
      ensures status == StatusOfMany(old(View(bc)), bc.partId, bc.payloadLength,
                                     old(bc.buffer[..]), old(conn.inbox), bc.maxPacketLength, bc.numPackets)
      ensures status == ReadDone ==>
                bc.numPackets <= |old(conn.inbox)| && conn.inbox == old(conn.inbox)[bc.numPackets..]
      ensures status == ReadFailed ==> |old(conn.inbox)| < bc.numPackets && conn.inbox == []
      ensures n == if status != ReadDone then 0
                   else CountedByMany(old(View(bc)), bc.partId, bc.payloadLength,
                                      old(bc.buffer[..]), old(conn.inbox), bc.maxPacketLength, bc.numPackets)
    {
      n := 0;
      ghost var id, pl, max, count := bc.partId, bc.payloadLength, bc.maxPacketLength, bc.numPackets;
      ghost var reader, rest, packets, left := View(bc), bc.buffer[..], conn.inbox, count;
      ghost var result := ReadMany(reader, id, pl, rest, packets, max, left);
      ghost var total := CountedByMany(reader, id, pl, rest, packets, max, left);
      ghost var end := StatusOfMany(reader, id, pl, rest, packets, max, left);
      var i, start := 0, 0;
      while i < bc.numPackets
        invariant bc.Paired()
        invariant 0 <= i <= count && left == count - i
        invariant i <= |old(conn.inbox)| && packets == old(conn.inbox)[i..]
        invariant 0 <= start <= bc.buffer.Length && |rest| == Room(left, max)
        invariant reader == View(bc) && rest == bc.buffer[start..] && packets == conn.inbox
        invariant ReadMany(reader, id, pl, rest, packets, max, left) == result
        invariant n + CountedByMany(reader, id, pl, rest, packets, max, left) == total
        invariant StatusOfMany(reader, id, pl, rest, packets, max, left) == end
      {
        assert left > 0;
        var bts: nat;
        bts, status := ReadPacket(bc, start);
        if status != ReadDone {
          return 0, status;
        }
        reader, rest, packets, left := ReadManyNext(reader, id, pl, rest, packets, max, left, View(bc), bts);
        n := n + bts;
        i := i + 1;
        start := start + bc.maxPacketLength;
      }
      status := ReadDone;
    }

    ghost function View(bc: PartContext): Reader
      reads this`packetChan, bc`highestSequenceNumber, bc`missingSequenceNums, bc`missingSequenceNumOffsets
      reads bc`recvPackets, bc.data
    {
      Reader(bc.Rx(), bc.recvPackets, packetChan)
    }

    // The body of the loop in ReadPart, on the window buffer[start:start+max].
    method ReadPacket(bc: PartContext, start: nat) returns (n: nat, status: ReadStatus)
      requires bc.Paired() && bc.buffer != bc.data
      requires HEADER_LEN <= bc.maxPacketLength && start + bc.maxPacketLength <= bc.buffer.Length
      modifies this`packetChan, conn
      modifies bc`highestSequenceNumber, bc`missingSequenceNums, bc`missingSequenceNumOffsets, bc`recvPackets
      modifies bc.data, bc.buffer
      ensures bc.Paired()
      ensures if |old(conn.inbox)| == 0 then status == ReadFailed && conn.inbox == []
              else var window := Overlay(old(bc.buffer[start..])[..bc.maxPacketLength], old(conn.inbox)[0]);
                   status == StatusOfOne(old(View(bc)), bc.partId, bc.payloadLength, window)
      ensures status == ReadDone ==>
                && conn.inbox == old(conn.inbox)[1..]
                && bc.buffer[start + bc.maxPacketLength..] == old(bc.buffer[start..])[bc.maxPacketLength..]
                && var window := Overlay(old(bc.buffer[start..])[..bc.maxPacketLength], old(conn.inbox)[0]);
                && View(bc) == ReadOne(old(View(bc)), bc.partId, bc.payloadLength, window)
                && n == CountedBytes(old(View(bc)), bc.partId, bc.payloadLength, window, old(conn.inbox)[0])
      ensures status == ReadFailed ==> View(bc) == old(View(bc))
    {
      var end := start + bc.maxPacketLength;
      assert bc.buffer[start..][..bc.maxPacketLength] == bc.buffer[start..end];
      var bts, ok := conn.Read(bc.buffer, start, end);
      if !ok {
        return 0, ReadFailed;
      }
      var outcome := bc.DeSerializePacket(bc.buffer, start, end);
      if outcome == SliceBoundsPanic {
        return 0, Panicked;
      }
      if outcome == Stored {
        bc.recvPackets := bc.recvPackets + 1;
        return bts, ReadDone;
      }
      if |packetChan| >= PACKET_CHAN_CAPACITY {
        return 0, ChannelFull;
      }
      packetChan := packetChan + [bc.buffer[start..end]];
      return 0, ReadDone;
    }
  }

  // ------------------------------------------------------- single packets

  // The datagram that WriteSingle sends.
  function SingleMessage(partId: int, data: seq<byte>): seq<byte>
    requires IsInt64(partId)
  {
    Put64(partId) + data
  }

  // Byte for byte: the part id, then the data.
  lemma SingleLayout(partId: int, data: seq<byte>)
    requires IsInt64(partId)
    ensures var w := SingleMessage(partId, data);
            && |w| == 8 + |data| && w[8..] == data
            && Weighted(w[0..8]) == partId % 0x1_0000_0000_0000_0000
  {
    assert SingleMessage(partId, data)[0..8] == Put64(partId);
    Put64Layout(partId);
  }

  // A reply matches a part id exactly when it starts with it; missing bytes of a
  // short reply count as zeros.
  lemma ReplyMatches(reply: seq<byte>, partId: int)
    requires IsInt64(partId)
    ensures AckId(reply) == partId
       <==> forall i :: 0 <= i < 8 ==> Put64(partId)[i] == if i < |reply| then reply[i] else 0
  {
    var w := Window(reply, 8);
    assert forall i :: 0 <= i < 8 ==> w[i] == if i < |reply| then reply[i] else 0;
    if AckId(reply) == partId {
      PutGet64(w);
    }
    if forall i :: 0 <= i < 8 ==> Put64(partId)[i] == w[i] {
      assert w == Put64(partId);
      GetPut64(partId);
    }
  }

  // What ReadSingle finds in its zeroed buffer. It sends all of it back: the
  // shorter reply it prepares is not the one it writes.
  function SingleBuffer(datagram: seq<byte>): (b: seq<byte>)
    ensures |b| == PACKET_SIZE
  {
    Window(datagram, PACKET_SIZE)
  }

  // The part id that WriteSingle takes from a reply.
  function AckId(reply: seq<byte>): int
  {
    Get64(Window(reply, 8))
  }

  // WriteSingle ends at the first reply that carries its part id.
  ghost predicate FirstAck(inbox: seq<seq<byte>>, partId: int, k: int)
  {
    && 0 <= k < |inbox| && AckId(inbox[k]) == partId
    && forall j :: 0 <= j < k ==> AckId(inbox[j]) != partId
  }

  method WriteSingle(conn: Conn, data: seq<byte>, partId: int) returns (n: nat, ok: bool)
    requires IsInt64(partId)
    modifies conn
    ensures partId == 0 ==> ok && n == 0 && conn.sent == old(conn.sent) && conn.inbox == old(conn.inbox)
    ensures ok && partId != 0 ==>
              var sends := |conn.sent| - |old(conn.sent)|;
              && FirstAck(old(conn.inbox), partId, sends - 1)
              && conn.inbox == old(conn.inbox)[sends..]
              && conn.sent[..|old(conn.sent)|] == old(conn.sent)
              && (forall j :: |old(conn.sent)| <= j < |conn.sent| ==> conn.sent[j] == SingleMessage(partId, data))
              && n == |data| + 8
    ensures ok <==> partId == 0 || exists k :: k < old(conn.writesLeft) && FirstAck(old(conn.inbox), partId, k)
    ensures !ok ==>
              && |conn.sent| == |old(conn.sent)| + Min(old(conn.writesLeft), |old(conn.inbox)| + 1)
              && conn.inbox == old(conn.inbox)[Min(old(conn.writesLeft), |old(conn.inbox)|)..]
              && conn.sent[..|old(conn.sent)|] == old(conn.sent)
              && forall j :: |old(conn.sent)| <= j < |conn.sent| ==> conn.sent[j] == SingleMessage(partId, data)
  {
    var retPartId := 0;
    n := 0;
    ghost var inbox, sent, writes, k := conn.inbox, conn.sent, conn.writesLeft, 0;
    while retPartId != partId
      invariant 0 <= k <= |inbox| && conn.inbox == inbox[k..] && k <= writes && conn.writesLeft == writes - k
      invariant |conn.sent| == |sent| + k && conn.sent[..|sent|] == sent
      invariant forall j :: |sent| <= j < |conn.sent| ==> conn.sent[j] == SingleMessage(partId, data)
      invariant k == 0 ==> n == 0 && retPartId == 0
      invariant k > 0 ==> n == |data| + 8 && retPartId == AckId(inbox[k - 1])
      invariant forall j :: 0 <= j < k && (j < k - 1 || retPartId != partId) ==> AckId(inbox[j]) != partId
      invariant partId == 0 ==> k == 0
      decreases |conn.inbox|, retPartId != partId
    {
      n, retPartId, ok := SendAndAwait(conn, data, partId);
      if !ok {
        forall x | x < writes ensures !FirstAck(inbox, partId, x) {
        }
        return 0, false;
      }
      k := k + 1;
    }
    assert partId != 0 ==> FirstAck(inbox, partId, k - 1);
    ok := true;
  }

  // The body of the loop in WriteSingle.
  method SendAndAwait(conn: Conn, data: seq<byte>, partId: int) returns (n: nat, retPartId: int, ok: bool)
    requires IsInt64(partId)
    modifies conn
    ensures ok == (old(conn.writesLeft) > 0 && |old(conn.inbox)| > 0)
    ensures ok ==>
              && conn.sent == old(conn.sent) + [SingleMessage(partId, data)] && n == |data| + 8
              && conn.inbox == old(conn.inbox)[1..] && retPartId == AckId(old(conn.inbox)[0])
              && conn.writesLeft == old(conn.writesLeft) - 1
    ensures !ok ==>
              && conn.inbox == old(conn.inbox)
              && conn.sent == old(conn.sent) + if old(conn.writesLeft) == 0 then [] else [SingleMessage(partId, data)]
  {
    var buffer := Put64(partId) + data;
    n, ok := conn.Write(buffer);
    if !ok {
      return 0, 0, false;
    }
    var retBuffer := new byte[8](_ => 0);
    assert retBuffer[0..8] == Zeros(8);
    ghost var inbox := conn.inbox;
    var m;
    m, ok := conn.Read(retBuffer, 0, 8);
    if !ok {
      return 0, 0, false;
    }
    assert retBuffer[..] == Overlay(Zeros(8), inbox[0]);
    retPartId := Get64(retBuffer[0..8]);
  }

  method ReadSingle(conn: Conn, data: array<byte>) returns (n: int, ok: bool)
    modifies conn, data
    ensures ok <==> |old(conn.inbox)| > 0 && old(conn.writesLeft) > 0
    ensures |old(conn.inbox)| > 0 ==>
              var b := SingleBuffer(old(conn.inbox)[0]);
              var m := Min(data.Length, 1392);
              && conn.inbox == old(conn.inbox)[1..]
              && data[..] == b[8..8 + m] + old(data[..])[m..]
              && (ok ==> conn.sent == old(conn.sent) + [b])
    ensures ok ==>
              var got := Min(|old(conn.inbox)[0]|, 1400);
              n == if got >= 8 then got - 8 else got - 8 + 0x1_0000_0000_0000_0000
  {
    var buffer := new byte[PACKET_SIZE](_ => 0);
    assert buffer[0..PACKET_SIZE] == Zeros(PACKET_SIZE);
    var bts, ok' := conn.Read(buffer, 0, PACKET_SIZE);
    if !ok' {
      return 0, false;
    }
    ghost var b, m := buffer[..], Min(data.Length, PACKET_SIZE - 8);
    assert b == SingleBuffer(old(conn.inbox)[0]);
    var payload := buffer[8..];
    CopyInto(data, 0, data.Length, payload);
    assert payload[..m] == b[8..8 + m];
    assert data[..] == b[8..8 + m] + old(data[..])[m..];
    assert buffer[..] == b;
    var w;
    w, ok' := conn.Write(buffer[..]);
    if !ok' {
      return 0, false;
    }
    // uint64(bts) - 8
    var got: int := bts;
    n, ok := got - 8, true;
    if n < 0 {
      n := n + 0x1_0000_0000_0000_0000;
    }
  }

  lemma WholePartBytes(partId: int, pl: int, src: seq<byte>)
    requires Sendable(partId, pl, src)
    ensures |Flatten(PartPackets(partId, pl, src, PacketCount(pl, src)))| == |src| + 16 * PacketCount(pl, src)
  {
    PartBytes(partId, pl, src, PacketCount(pl, src));
    CeilDivIsCeiling(|src|, pl);
  }

  lemma WrittenOneMore(sent: seq<seq<byte>>, all: seq<seq<byte>>, i: nat)
    requires i < |all|
    ensures sent + all[..i] + [all[i]] == sent + all[..i + 1]
    ensures |Flatten(all[..i + 1])| == |Flatten(all[..i])| + |all[i]|
  {
    FlattenPrefix(all, i);
  }

  // A pass over lists that name packets of the part appends to the connection
  // exactly copies of the datagrams that WritePart wrote there, number for number,
  // as far as the writes go; with writes enough it ends well.
  lemma PassRepeatsOriginals(dp: SCIONDataplane, bc: PartContext, nums: seq<int>, offs: seq<int>,
                             before: seq<seq<byte>>, writes: nat, after: seq<seq<byte>>, status: RoundStatus)
    returns (numbers: seq<int>)
    requires bc.Prepared() && NamesPackets(nums, offs, bc.numPackets)
    requires dp.PassResult(bc, nums, offs, before, writes, after, status)
    ensures numbers == RetransferNumbers(nums, offs, bc.numPackets, |nums|)
    ensures status == if writes < |numbers| then Fatal else RoundDone
    ensures |after| == |before| + Min(writes, |numbers|) && after[..|before|] == before
    ensures var originals := PartPackets(bc.partId, bc.payloadLength, bc.data[..], bc.numPackets);
            forall i :: 0 <= i < Min(writes, |numbers|) ==>
              1 <= numbers[i] <= |originals| && after[|before| + i] == originals[numbers[i] - 1]
  {
    RetransfersReproduceOriginals(bc.partId, bc.payloadLength, bc.data[..], nums, offs);
    numbers := RetransferNumbers(nums, offs, bc.numPackets, |nums|);
    PacketsHaveSlots(bc.payloadLength, bc.data[..]);
    var some := numbers[..Min(writes, |numbers|)];
    EachAgainIsOriginal(bc.partId, bc.payloadLength, bc.data[..], some, bc.numPackets);
    AppendedOriginals(before, AgainPackets(bc.partId, bc.payloadLength, bc.data[..], some), after, some, numbers,
                      PartPackets(bc.partId, bc.payloadLength, bc.data[..], bc.numPackets));
  }

  lemma AppendedOriginals(before: seq<seq<byte>>, sent: seq<seq<byte>>, after: seq<seq<byte>>, some: seq<int>,
                          numbers: seq<int>, originals: seq<seq<byte>>)
    requires after == before + sent && |sent| == |some| && some <= numbers && NumbersInPart(some, |originals|)
    requires forall i :: 0 <= i < |sent| ==> sent[i] == originals[some[i] - 1]
    ensures |after| == |before| + |some| && after[..|before|] == before
    ensures forall i :: 0 <= i < |some| ==>
              1 <= numbers[i] <= |originals| && after[|before| + i] == originals[numbers[i] - 1]
  {
  }

  // With the numbers in done sent, what is left of the pass starts at entry i.
  ghost predicate PassStands(nums: seq<int>, offs: seq<int>, slots: nat, i: nat, done: seq<int>, pass: Pass)
    requires i <= |nums|
  {
    var rest := PassFrom(nums, offs, slots, i);
    done + rest.numbers == pass.numbers && rest.end == pass.end
  }

  lemma PassBegins(nums: seq<int>, offs: seq<int>, slots: nat, pass: Pass) returns (done: seq<int>)
    requires pass == PassFrom(nums, offs, slots, 0)
    ensures done == [] && PassStands(nums, offs, slots, 0, done, pass)
  {
    done := [];
    assert done + pass.numbers == pass.numbers;
  }

  // A pass has come to its end, or to the end of the writes.
  ghost predicate PassEnds(pass: Pass, writes: nat, done: seq<int>, status: RoundStatus) {
    && done == pass.numbers[..Min(writes, |pass.numbers|)]
    && status == if writes < |pass.numbers| then Fatal else pass.end
  }

  // Where a pass ends without coming to another number.
  lemma PassStops(nums: seq<int>, offs: seq<int>, slots: nat, i: nat, done: seq<int>, pass: Pass, writes: nat)
    requires i <= |nums| && PassStands(nums, offs, slots, i, done, pass) && |done| <= writes
    requires i == |nums| || nums[i] == 0 || i >= |offs|
    ensures PassEnds(pass, writes, done, if i < |nums| && nums[i] == 0 then Fatal else RoundDone)
  {
    assert done + [] == done;
  }

  // What entry i adds with so many writes left, and what stands after it.
  lemma PassGoesOn(nums: seq<int>, offs: seq<int>, slots: nat, i: nat, done: seq<int>, pass: Pass, writes: nat)
    returns (entry: seq<int>)
    requires i < |nums| && i < |offs| && nums[i] != 0 && PassStands(nums, offs, slots, i, done, pass)
    ensures var m := Reach(nums[i], offs[i], slots);
            && entry == EntryNumbers(nums[i], Min(writes, m)) && NumbersInPart(entry, slots)
            && |done + entry| <= |pass.numbers| && done + entry == pass.numbers[..|done + entry|]
            && (writes < m ==> |done + entry| < |pass.numbers|)
            && (m <= writes && m < offs[i] ==> |done + entry| == |pass.numbers| && pass.end == OutOfBounds)
            && (m <= writes && m >= offs[i] ==> PassStands(nums, offs, slots, i + 1, done + entry, pass))
  {
    var m, rest := Reach(nums[i], offs[i], slots), PassFrom(nums, offs, slots, i);
    entry := EntryNumbers(nums[i], Min(writes, m));
    EntryOfPass(done, entry, EntryNumbers(nums[i], m), rest.numbers[m..], rest.numbers, pass.numbers);
  }

  // What an entry adds to a pass, in whole or in part.
  lemma EntryOfPass(done: seq<int>, entry: seq<int>, whole: seq<int>, rest: seq<int>, left: seq<int>, all: seq<int>)
    requires |entry| <= |whole| && (forall j :: 0 <= j < |entry| ==> entry[j] == whole[j])
    requires left == whole + rest && done + left == all
    ensures |done| + |whole| <= |all| && done + entry == all[..|done + entry|]
    ensures |entry| == |whole| ==> entry == whole && done + entry + rest == all
  {
    assert forall j :: 0 <= j < |left| ==> all[|done| + j] == left[j];
    assert |entry| == |whole| ==> entry == whole;
  }

  // One more packet of an entry.
  lemma EntryOneMore(sent: seq<seq<byte>>, before: seq<seq<byte>>, after: seq<seq<byte>>,
                     partId: int, pl: int, src: seq<byte>, v: int, j: nat)
    requires Sendable(partId, pl, src) && 1 <= v && v + j <= Slots(|src|, pl)
    requires before == sent + AgainPackets(partId, pl, src, EntryNumbers(v, j))
    requires after == before + [AgainPacket(partId, pl, src, v + j)]
    ensures after == sent + AgainPackets(partId, pl, src, EntryNumbers(v, j + 1))
  {
    ResentOneMore(sent, before, after, partId, pl, src, EntryNumbers(v, j), [v + j]);
  }

  lemma ResentOneMore(sent: seq<seq<byte>>, before: seq<seq<byte>>, after: seq<seq<byte>>,
                      partId: int, pl: int, src: seq<byte>, done: seq<int>, more: seq<int>)
    requires Sendable(partId, pl, src)
    requires NumbersInPart(done, Slots(|src|, pl)) && NumbersInPart(more, Slots(|src|, pl))
    requires before == sent + AgainPackets(partId, pl, src, done)
    requires after == before + AgainPackets(partId, pl, src, more)
    ensures NumbersInPart(done + more, Slots(|src|, pl))
    ensures after == sent + AgainPackets(partId, pl, src, done + more)
  {
    AgainPacketsConcat(partId, pl, src, done, more);
  }

  lemma OverlayInPlace(b: seq<byte>, lo: nat, hi: nat, packet: seq<byte>)
    requires lo <= hi <= |b|
    ensures var n := Min(hi - lo, |packet|);
            b[..lo] + packet[..n] + b[lo + n..] == b[..lo] + Overlay(b[lo..hi], packet) + b[hi..]
  {
    var n := Min(hi - lo, |packet|);
    assert b[lo + n..] == b[lo..hi][n..] + b[hi..];
  }

  // make([]byte, len(payload)+16) with the payload after the header space
  method BufferFor(payload: seq<byte>) returns (buf: array<byte>)
    ensures fresh(buf) && buf.Length == HEADER_LEN + |payload|
    ensures buf[HEADER_LEN..] == payload
  {
    buf := new byte[HEADER_LEN + |payload|];
    CopyInto(buf, HEADER_LEN, buf.Length, payload);
  }
}
