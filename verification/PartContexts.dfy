// The part context and its packet packer (dataplane/partcontext.go,
// dataplane/partspacker.go) as objects updated in place.
module PartContexts {
  import opened Utils
  import opened Codec
  import opened Chunks
  import opened GapLedger
  import opened Reassembly

  class PartContext {
    const partId: int
    const maxPacketLength: nat
    // TransportPacketPacker.GetHeaderLen()
    const transportHeaderLen: nat
    const data: array<byte>
    var buffer: array<byte>
    var headerLength: int
    var payloadLength: int
    var numPackets: int
    var recommendedBufferSize: int
    var highestSequenceNumber: int
    var missingSequenceNums: seq<int>
    var missingSequenceNumOffsets: seq<int>
    var currentSequenceNumber: int
    var recvPackets: int

    constructor (partId: int, maxPacketLength: nat, transportHeaderLen: nat, data: array<byte>)
      requires IsInt64(partId) && IsInt64(data.Length)
      requires maxPacketLength > transportHeaderLen + HEADER_LEN
      ensures this.partId == partId && this.maxPacketLength == maxPacketLength && this.data == data
      ensures Prepared() && Sized() && Ledger() == FRESH && currentSequenceNumber == 0 && recvPackets == 0
      ensures payloadLength == maxPacketLength - (transportHeaderLen + 16)
      ensures fresh(buffer)
    {
      this.partId := partId;
      this.maxPacketLength := maxPacketLength;
      this.transportHeaderLen := transportHeaderLen;
      this.data := data;
      highestSequenceNumber, currentSequenceNumber, recvPackets := 0, 0, 0;
      buffer := new byte[0];
      new;
      Prepare();
    }

    // What Prepare establishes; no other method changes these fields. First
    // the packets of the part, then the sizes of the read buffer.
    ghost predicate Prepared()
      reads `payloadLength, `numPackets
    {
      && IsInt64(partId) && IsInt64(data.Length)
      && payloadLength >= 1
      && numPackets == CeilDiv(data.Length, payloadLength)
    }

    ghost predicate Sized()
      reads `headerLength, `payloadLength, `numPackets, `recommendedBufferSize
    {
      && headerLength == transportHeaderLen + HEADER_LEN
      && maxPacketLength == payloadLength + headerLength
      && recommendedBufferSize == numPackets * maxPacketLength
    }

    // The two lists of the ledger stay parallel.
    ghost predicate Paired()
      reads `missingSequenceNums, `missingSequenceNumOffsets
    {
      |missingSequenceNums| == |missingSequenceNumOffsets|
    }

    ghost function Ledger(): Ledger
      reads `highestSequenceNumber, `missingSequenceNums, `missingSequenceNumOffsets
    {
      GapLedger.Ledger(highestSequenceNumber, missingSequenceNums, missingSequenceNumOffsets)
    }

    ghost function Rx(): Rx
      reads `highestSequenceNumber, `missingSequenceNums, `missingSequenceNumOffsets, data
    {
      Reassembly.Rx(Ledger(), data[..])
    }

    method Prepare()
      requires IsInt64(partId) && IsInt64(data.Length)
      requires maxPacketLength > transportHeaderLen + HEADER_LEN
      modifies this
      ensures Prepared() && Sized()
      ensures missingSequenceNums == [] && missingSequenceNumOffsets == []
      ensures highestSequenceNumber == old(highestSequenceNumber) && currentSequenceNumber == old(currentSequenceNumber)
      ensures recvPackets == old(recvPackets) && buffer == old(buffer)
    {
      missingSequenceNums := [];
      missingSequenceNumOffsets := [];
      headerLength := transportHeaderLen + HEADER_LEN;
      payloadLength := maxPacketLength - headerLength;
      numPackets := CeilForceInt(data.Length, payloadLength);
      CeilForceIntIsCeilDiv(data.Length, payloadLength);
      recommendedBufferSize := numPackets * maxPacketLength;
    }

    method GetNextSequenceNumber() returns (n: int)
      modifies this`currentSequenceNumber
      ensures n == currentSequenceNumber == old(currentSequenceNumber) + 1
    {
      currentSequenceNumber := currentSequenceNumber + 1;
      n := currentSequenceNumber;
    }

    // The payload windows of the part: contiguous, and together all of data.
    method GetPayloadByPacketIndex(i: int) returns (payload: seq<byte>)
      requires InRange(data.Length, payloadLength, i)
      ensures payload == Chunk(data[..], payloadLength, i)
      ensures payload == data[i * payloadLength..Min(i * payloadLength + payloadLength, data.Length)]
    {
      var partStart := i * payloadLength;
      var end := Min(partStart + payloadLength, data.Length);
      payload := data[partStart..end];
    }

    method SetPayloadByPacketIndex(i: int, payload: seq<byte>)
      requires InRange(data.Length, payloadLength, i)
      modifies data
      ensures data[..] == SetChunk(old(data[..]), payloadLength, i, payload)
      ensures var at := i * payloadLength;
              var m := Min(Min(payloadLength, data.Length - at), |payload|);
              data[..] == old(data[..])[..at] + payload[..m] + old(data[..])[at + m..]
    {
      var partStart := i * payloadLength;
      var end := Min(partStart + payloadLength, data.Length);
      CopyInto(data, partStart, end, payload);
    }

    // ---------------------------------------------------------- the packer

    method Pack(buf: array<byte>)
      requires buf.Length >= HEADER_LEN && buf != data
      requires IsInt64(partId) && IsInt64(currentSequenceNumber + 1)
      modifies buf, this`currentSequenceNumber
      ensures currentSequenceNumber == old(currentSequenceNumber) + 1
      ensures buf[..] == Wire(partId, currentSequenceNumber, old(buf[HEADER_LEN..]))
    {
      var sequenceNumber := GetNextSequenceNumber();
      PutUint64(buf, 8, sequenceNumber);
      ghost var half := buf[..];
      PutUint64(buf, 0, partId);
      HeaderInPlace(old(buf[..]), half, buf[..], Put64(partId), Put64(sequenceNumber));
    }

    method PackRetransfer(buf: array<byte>, sequenceNumber: int)
      requires buf.Length >= HEADER_LEN && buf != data
      requires IsInt64(partId) && IsInt64(sequenceNumber)
      modifies buf
      ensures buf[..] == Wire(partId, sequenceNumber, old(buf[HEADER_LEN..]))
    {
      PutUint64(buf, 8, sequenceNumber);
      ghost var half := buf[..];
      PutUint64(buf, 0, partId);
      HeaderInPlace(old(buf[..]), half, buf[..], Put64(partId), Put64(sequenceNumber));
    }

    // buf[lo..hi] is the caller's slice; the result's rest starts after the header.
    method Unpack(buf: array<byte>, lo: nat, hi: nat) returns (p: Parsed, rest: nat)
      requires lo + HEADER_LEN <= hi <= buf.Length
      ensures p == Parse(buf[lo..hi], partId)
      ensures rest == if p.PartPacket? then lo + HEADER_LEN else lo
    {
      SliceOfSlice(buf[..], lo, hi, 0, 8);
      SliceOfSlice(buf[..], lo, hi, 8, 16);
      SliceOfSlice(buf[..], lo, hi, 16, hi - lo);
      var sequenceNumber := Get64(buf[lo + 8..lo + 16]);
      var id := Get64(buf[lo..lo + 8]);
      if id != partId {
        return Foreign, lo;
      }
      return PartPacket(sequenceNumber, buf[lo + HEADER_LEN..hi]), lo + HEADER_LEN;
    }

    // ------------------------------------------------------------ receiving

    // The lock-protected blocks of DeSerializePacket.
    method AddGap(s: int)
      requires Paired()
      requires s > highestSequenceNumber + 1
      modifies this`highestSequenceNumber, this`missingSequenceNums, this`missingSequenceNumOffsets
      ensures var r := OpenGap(old(Ledger()), s);
              missingSequenceNums == r.nums && missingSequenceNumOffsets == r.offs
      ensures highestSequenceNumber == old(highestSequenceNumber) || highestSequenceNumber == s
    {
      var diff := s - highestSequenceNumber;
      var index := IndexOf(s - (diff - 1), missingSequenceNums);
      if index < 0 {
        missingSequenceNums := missingSequenceNums + [s - (diff - 1)];
        missingSequenceNumOffsets := missingSequenceNumOffsets + [diff - 1];
        highestSequenceNumber := s;
      }
    }

    method CountDown(index: nat)
      requires Paired() && index < |missingSequenceNums|
      modifies this`missingSequenceNums, this`missingSequenceNumOffsets
      ensures Ledger() == FillGap(old(Ledger()), index)
    {
      missingSequenceNumOffsets := missingSequenceNumOffsets[index := missingSequenceNumOffsets[index] - 1];
      if missingSequenceNumOffsets[index] == 0 {
        missingSequenceNums := RemoveFromSliceByIndex(missingSequenceNums, index);
        missingSequenceNumOffsets := RemoveFromSliceByIndex(missingSequenceNumOffsets, index);
      }
    }

    // What DeSerializePacket does to the ledger before it copies the payload:
    // known is false for the error "Duplicate Retransfer".
    method RecordArrival(s: int) returns (known: bool)
      requires Paired()
      modifies this`highestSequenceNumber, this`missingSequenceNums, this`missingSequenceNumOffsets
      ensures known == !Rejects(old(Ledger()), s)
      ensures var r := Arrive(old(Ledger()), s);
              missingSequenceNums == r.nums && missingSequenceNumOffsets == r.offs
      ensures highestSequenceNumber == old(highestSequenceNumber)
              || highestSequenceNumber == s > old(highestSequenceNumber)
    {
      known := true;
      var diff := s - highestSequenceNumber;
      if diff > 1 {
        AddGap(s);
      } else if diff < 0 {
        var index := IndexOfMin(s, missingSequenceNums);
        if index >= 0 {
          CountDown(index);
        } else {
          known := false;
        }
      }
    }

    // The last part of DeSerializePacket; stored is false when the slice
    // expression panics.
    method CopyToSlot(s: int, payload: seq<byte>) returns (stored: bool)
      modifies data
      ensures stored == InRange(data.Length, payloadLength, s - 1)
      ensures data[..] == if stored then SetChunk(old(data[..]), payloadLength, s - 1, payload) else old(data[..])
    {
      var partStart := (s - 1) * payloadLength;
      var end := Min(partStart + payloadLength, data.Length);
      if !(0 <= partStart <= end) {
        return false;
      }
      CopyInto(data, partStart, end, payload);
      stored := true;
    }

    // The part of DeSerializePacket behind the check of the part id.
    method Receive(s: int, payload: seq<byte>) returns (outcome: Outcome)
      requires Paired()
      modifies this`highestSequenceNumber, this`missingSequenceNums, this`missingSequenceNumOffsets, data
      ensures Paired()
      ensures var r := ReceiveNumber(old(Rx()), payloadLength, s, payload);
              outcome == r.outcome && (outcome != SliceBoundsPanic ==> Rx() == r.rx)
    {
      ghost var l := Ledger();
      var diff := s - highestSequenceNumber;
      var known := RecordArrival(s);
      ArriveMovesHighest(l, s);
      if !known {
        return DuplicateRetransfer;
      }
      var stored := CopyToSlot(s, payload);
      if !stored {
        return SliceBoundsPanic;
      }
      if diff > 0 {
        highestSequenceNumber := s;
      }
      return Stored;
    }

    method DeSerializePacket(buf: array<byte>, lo: nat, hi: nat) returns (outcome: Outcome)
      requires Paired() && buf != data
      requires lo + HEADER_LEN <= hi <= buf.Length
      modifies this`highestSequenceNumber, this`missingSequenceNums, this`missingSequenceNumOffsets, data
      ensures Paired()
      ensures var r := Deliver(old(Rx()), partId, payloadLength, old(buf[lo..hi]));
              outcome == r.outcome && (outcome != SliceBoundsPanic ==> Rx() == r.rx)
    {
      var p, rest := Unpack(buf, lo, hi);
      if p.Foreign? {
        return MismatchingPartId;
      }
      outcome := Receive(p.seqNum, p.rest);
    }
  }

  lemma ArriveMovesHighest(l: Ledger, s: int)
    requires Parallel(l)
    ensures Arrive(l, s).highest == if s > l.highest then s else l.highest
    ensures Rejects(l, s) ==> Arrive(l, s) == l
  {
  }

  lemma SliceOfSlice<T>(s: seq<T>, lo: nat, hi: nat, a: nat, b: nat)
    requires lo <= hi <= |s| && a <= b <= hi - lo
    ensures s[lo..hi][a..b] == s[lo + a..lo + b]
  {
    var x, y := s[lo..hi][a..b], s[lo + a..lo + b];
    forall k | 0 <= k < b - a ensures x[k] == y[k] {
    }
    assert x == y;
  }

  // Writing the number, then the part id, over the first 16 bytes.
  lemma HeaderInPlace(b: seq<byte>, c: seq<byte>, d: seq<byte>, id: seq<byte>, number: seq<byte>)
    requires |b| >= 16 && |id| == 8 && |number| == 8
    requires c == b[..8] + number + b[16..] && d == c[..0] + id + c[8..]
    ensures d == id + number + b[16..]
  {
    var e := id + number + b[16..];
    assert |d| == |e|;
    forall k | 0 <= k < |e| ensures d[k] == e[k] {
    }
    assert d == e;
  }

  // copy(dst[from:to], src)
  method CopyInto(dst: array<byte>, from: nat, to: nat, src: seq<byte>)
    requires from <= to <= dst.Length
    modifies dst
    ensures var n := Min(to - from, |src|);
            dst[..] == old(dst[..])[..from] + src[..n] + old(dst[..])[from + n..]
  {
    var n := Min(to - from, |src|);
    forall k | 0 <= k < n {
      dst[from + k] := src[k];
    }
  }

  // binary.BigEndian.PutUint64(buf[at:at+8], uint64(x))
  method PutUint64(buf: array<byte>, at: nat, x: int)
    requires at + 8 <= buf.Length && IsInt64(x)
    modifies buf
    ensures buf[..] == old(buf[..])[..at] + Put64(x) + old(buf[..])[at + 8..]
  {
    CopyInto(buf, at, at + 8, Put64(x));
  }
}
