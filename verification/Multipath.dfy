// A socket that spreads each large message over several connections
// (api/mp.go).
module Multipath {
  import opened Utils
  import opened Codec
  import opened Chunks
  import opened PartContexts
  import opened Dataplane
  import opened Reassembly

  // Connection i is handed b[start:end] with start = i*SliceLen and end = Min(start+SliceLen, len(b)).
  function SliceLen(len: nat, conns: nat): nat
  {
    if conns == 0 then 0 else CeilDiv(len, conns)
  }

  // There is a connection, and the start of the last slice is still inside the
  // message.
  predicate Splits(len: nat, conns: nat)
  {
    conns >= 1 && (conns - 1) * SliceLen(len, conns) <= len
  }

  // No slice expression of the first n panics.
  ghost predicate AllInRange(len: nat, w: nat, n: nat)
  {
    forall i {:trigger InRange(len, w, i)} :: 0 <= i < n ==> InRange(len, w, i)
  }

  // That is exactly when neither the division by the number of connections nor
  // a slice expression panics.
  lemma SplitsExactlyWhenInRange(len: nat, conns: nat)
    ensures Splits(len, conns) <==> conns >= 1 && AllInRange(len, SliceLen(len, conns), conns)
  {
    var w := SliceLen(len, conns);
    if Splits(len, conns) {
      forall i {:trigger InRange(len, w, i)} | 0 <= i < conns ensures InRange(len, w, i) {
        InRangeUpTo(len, w, conns, i);
      }
    } else if conns >= 1 {
      assert !InRange(len, w, conns - 1);
    }
  }

  // w is the least width with which so many slices hold the message.
  predicate LeastWidth(len: nat, conns: nat, w: nat)
  {
    conns >= 1 && (w - 1) * conns < len <= w * conns
  }

  // The width of the slices is that one: no smaller width would do.
  lemma SliceLenIsLeast(len: nat, conns: nat)
    requires conns >= 1
    ensures LeastWidth(len, conns, SliceLen(len, conns))
    ensures forall w: nat :: LeastWidth(len, conns, w) ==> w == SliceLen(len, conns)
  {
    CeilDivIsCeiling(len, conns);
    forall w: nat | LeastWidth(len, conns, w) ensures w == SliceLen(len, conns) {
      CeilingIsUnique(len, conns, w, SliceLen(len, conns));
      CeilingIsUnique(len, conns, SliceLen(len, conns), w);
    }
  }

  // So a write or read panics exactly when the other slices, at that width, are
  // longer than the message.
  lemma SplitsExactlyByLeastWidth(len: nat, conns: nat, w: nat)
    requires LeastWidth(len, conns, w)
    ensures Splits(len, conns) <==> (conns - 1) * w <= len
  {
    SliceLenIsLeast(len, conns);
  }

  // And the slices are the stretches of that width, the last ones cut off.
  lemma SlicesOfLeastWidth(b: seq<byte>, conns: nat, w: nat)
    requires Splits(|b|, conns) && LeastWidth(|b|, conns, w)
    ensures forall i :: 0 <= i < conns ==> IsStretch(b, w, i, Slices(b, conns)[i])
  {
    SliceLenIsLeast(|b|, conns);
  }

  predicate IsStretch(b: seq<byte>, w: nat, i: nat, slice: seq<byte>)
  {
    0 <= i * w <= |b| && slice == b[i * w..Min(i * w + w, |b|)]
  }

  // Enough for any message: the square of the other connections' number.
  lemma SquareSuffices(len: nat, conns: nat)
    requires conns >= 1 && (conns - 1) * (conns - 1) <= len
    ensures Splits(len, conns)
  {
    var m, w := conns - 1, SliceLen(len, conns);
    CeilDivIsCeiling(len, conns);
    // (w-1)*(m+1) < len, so m*w <= len + m - w; and m <= w unless m*w < m*m.
    assert (w - 1) * (m + 1) == m * w + w - m - 1;
    if m <= w {
    } else {
      ScaleMonotone(w, m, m);
    }
  }

  // So any number up to 35 splits every message that is split at all.
  lemma UpTo35Connections(len: nat, conns: nat)
    requires 1 <= conns <= 35 && len > 1200
    ensures Splits(len, conns)
  {
    ScaleMonotone(conns - 1, 34, conns - 1);
    ScaleMonotone(conns - 1, 34, 34);
    SquareSuffices(len, conns);
  }

  // With 100 connections the shortest split message makes the write panic.
  lemma HundredConnectionsPanic()
    ensures !Splits(1201, 100) && !InRange(1201, SliceLen(1201, 100), 99)
  {
    assert SliceLen(1201, 100) == 13;
  }

  function Slices(b: seq<byte>, conns: nat): (r: seq<seq<byte>>)
    requires Splits(|b|, conns)
    ensures |r| == conns
    ensures forall i :: 0 <= i < conns ==>
              InRange(|b|, SliceLen(|b|, conns), i) && r[i] == Chunk(b, SliceLen(|b|, conns), i)
  {
    Cut(b, SliceLen(|b|, conns), conns)
  }

  // The slices, in order of the connections, are the message.
  lemma SlicesConcatenate(b: seq<byte>, conns: nat)
    requires Splits(|b|, conns)
    ensures Flatten(Slices(b, conns)) == b
  {
    var w := SliceLen(|b|, conns);
    CeilDivIsCeiling(|b|, conns);
    CutTiles(b, w, conns);
    var reach := conns * w;
    assert reach >= |b|;
    assert b[..|b|] == b;
  }

  // No byte is in two slices.
  lemma SlicesDisjoint(len: nat, conns: nat, i: nat, j: nat, x: int)
    requires i < conns && j < conns && i != j
    requires i * SliceLen(len, conns) <= x < i * SliceLen(len, conns) + SliceLen(len, conns)
    ensures !(j * SliceLen(len, conns) <= x < j * SliceLen(len, conns) + SliceLen(len, conns))
  {
    ChunksDisjoint(SliceLen(len, conns), i, j, x);
  }

  // The packets of all slices, in order.
  function AllPackets(slices: seq<seq<byte>>, pl: int): seq<seq<byte>>
    requires pl >= 1
  {
    if |slices| == 0 then []
    else
      var last := slices[|slices| - 1];
      CutAllTiles(last, pl);
      AllPackets(slices[..|slices| - 1], pl) + Cut(last, pl, CeilDiv(|last|, pl))
  }

  lemma {:induction false} PacketsOfSlices(slices: seq<seq<byte>>, pl: int)
    requires pl >= 1
    ensures Flatten(AllPackets(slices, pl)) == Flatten(slices)
  {
    if |slices| > 0 {
      var n := |slices| - 1;
      PacketsOfSlices(slices[..n], pl);
      CutAllTiles(slices[n], pl);
      FlattenConcat(AllPackets(slices[..n], pl), Cut(slices[n], pl, CeilDiv(|slices[n]|, pl)));
    }
  }

  // Both levels together: cutting every slice into packets and putting the
  // payloads one after the other gives the message again.
  lemma TwoLevelSplitIsPartition(b: seq<byte>, conns: nat, pl: int)
    requires Splits(|b|, conns) && pl >= 1
    ensures Flatten(AllPackets(Slices(b, conns), pl)) == b
  {
    PacketsOfSlices(Slices(b, conns), pl);
    SlicesConcatenate(b, conns);
  }

  // What the first n connections have read into the buffer, each into its slice.
  function Filled(b: seq<byte>, w: nat, arriving: seq<seq<byte>>, n: nat): (r: seq<byte>)
    requires n <= |arriving| && AllInRange(|b|, w, n)
    ensures |r| == |b|
  {
    if n == 0 then b
    else
      assert InRange(|b|, w, n - 1);
      SetChunk(Filled(b, w, arriving, n - 1), w, n - 1, arriving[n - 1])
  }

  // handed[i]: the buffers passed to connection i so far.
  class PartsSocket {
    var handed: seq<seq<seq<byte>>>

    constructor (conns: nat)
      ensures |handed| == conns && forall i :: 0 <= i < conns ==> handed[i] == []
    {
      handed := seq(conns, _ => []);
    }

    // The connections write at the same time; the order of the loop is one of
    // many, and none of the slices depends on another. reported: the count that
    // the first connection returns for a short message. A long one is reported
    // as zero bytes.
    method Write(b: seq<byte>, reported: nat) returns (n: nat, panicked: bool)
      modifies this
      ensures |b| <= 1200 ==>
                && panicked == (|old(handed)| == 0)
                && (!panicked ==> n == reported && handed == old(handed)[0 := old(handed)[0] + [b]])
      ensures |b| > 1200 ==> panicked == !Splits(|b|, |old(handed)|)
      ensures |b| > 1200 && !panicked ==>
                && n == 0 && |handed| == |old(handed)|
                && forall i :: 0 <= i < |handed| ==> handed[i] == old(handed)[i] + [Slices(b, |handed|)[i]]
      ensures forall w: nat :: |b| > 1200 && LeastWidth(|b|, |old(handed)|, w) ==>
                && panicked == ((|old(handed)| - 1) * w > |b|)
                && (!panicked ==> forall i :: 0 <= i < |handed| ==>
                      |handed[i]| == |old(handed)[i]| + 1 && IsStretch(b, w, i, handed[i][|old(handed)[i]|]))
    {
      if |b| <= PACKET_PAYLOAD_SIZE {
        if |handed| == 0 {
          return 0, true;
        }
        handed := handed[0 := handed[0] + [b]];
        return reported, false;
      }
      n := 0;
      var partLen;
      partLen, panicked := PartLen(|b|, |handed|);
      SplitsExactlyWhenInRange(|b|, |handed|);
      if !panicked {
        panicked := WriteSlices(b, partLen);
      }
      HandedByLeastWidth(b, old(handed), handed, panicked);
    }

    method WriteSlices(b: seq<byte>, partLen: nat) returns (panicked: bool)
      modifies this
      ensures panicked == !AllInRange(|b|, partLen, |old(handed)|)
      ensures !panicked ==> |handed| == |old(handed)|
      ensures !panicked ==> forall i :: 0 <= i < |handed| ==>
                InRange(|b|, partLen, i) && handed[i] == old(handed)[i] + [Chunk(b, partLen, i)]
    {
      ghost var before := handed;
      var conns := |handed|;
      var i := 0;
      while i < conns
        invariant 0 <= i <= conns == |handed|
        invariant AllInRange(|b|, partLen, i)
        invariant forall j :: 0 <= j < i ==> InRange(|b|, partLen, j) && handed[j] == before[j] + [Chunk(b, partLen, j)]
        invariant forall j :: i <= j < conns ==> handed[j] == before[j]
      {
        var start, end := SliceBounds(|b|, partLen, i);
        if start > end {
          return true;
        }
        handed := handed[i := handed[i] + [b[start..end]]];
        i := i + 1;
      }
      panicked := false;
    }

    // arriving[i]: what connection i reads, into its own slice of b.
    method Read(b: array<byte>, arriving: seq<seq<byte>>, reported: nat) returns (n: nat, panicked: bool)
      requires |arriving| == |handed|
      modifies b
      ensures b.Length <= 1200 ==>
                && panicked == (|arriving| == 0)
                && (!panicked ==> n == reported && b[..] == Overlay(old(b[..]), arriving[0]))
      ensures b.Length > 1200 ==> panicked == !Splits(b.Length, |arriving|)
      ensures forall w: nat :: b.Length > 1200 && LeastWidth(b.Length, |arriving|, w) ==>
                panicked == ((|arriving| - 1) * w > b.Length)
      ensures b.Length > 1200 && !panicked ==>
                && n == 0 && AllInRange(b.Length, SliceLen(b.Length, |arriving|), |arriving|)
                && b[..] == Filled(old(b[..]), SliceLen(b.Length, |arriving|), arriving, |arriving|)
    {
      if b.Length <= PACKET_PAYLOAD_SIZE {
        if |arriving| == 0 {
          return 0, true;
        }
        CopyInto(b, 0, b.Length, arriving[0]);
        return reported, false;
      }
      n := 0;
      var partLen;
      partLen, panicked := PartLen(b.Length, |arriving|);
      SplitsExactlyWhenInRange(b.Length, |arriving|);
      if !panicked {
        panicked := ReadSlices(b, partLen, arriving);
      }
      forall w: nat | LeastWidth(b.Length, |arriving|, w) ensures panicked == ((|arriving| - 1) * w > b.Length) {
        SplitsExactlyByLeastWidth(b.Length, |arriving|, w);
      }
    }
  }

  lemma HandedByLeastWidth(b: seq<byte>, before: seq<seq<seq<byte>>>, after: seq<seq<seq<byte>>>, panicked: bool)
    requires panicked == !Splits(|b|, |before|)
    requires !panicked ==> |after| == |before|
                           && forall i :: 0 <= i < |after| ==> after[i] == before[i] + [Slices(b, |after|)[i]]
    ensures forall w: nat :: LeastWidth(|b|, |before|, w) ==>
              && panicked == ((|before| - 1) * w > |b|)
              && (!panicked ==> forall i :: 0 <= i < |after| ==>
                    |after[i]| == |before[i]| + 1 && IsStretch(b, w, i, after[i][|before[i]|]))
  {
    forall w: nat | LeastWidth(|b|, |before|, w)
      ensures panicked == ((|before| - 1) * w > |b|)
      ensures !panicked ==> forall i :: 0 <= i < |after| ==>
                |after[i]| == |before[i]| + 1 && IsStretch(b, w, i, after[i][|before[i]|])
    {
      SplitsExactlyByLeastWidth(|b|, |before|, w);
      if !panicked {
        SlicesOfLeastWidth(b, |before|, w);
      }
    }
  }

  // utils.CeilForceInt(bLen, len(conns)) divides by the number of connections.
  method PartLen(len: nat, conns: nat) returns (partLen: nat, panicked: bool)
    ensures partLen == SliceLen(len, conns) && panicked == (conns == 0)
  {
    if conns == 0 {
      return 0, true;
    }
    CeilForceIntIsCeilDiv(len, conns);
    partLen, panicked := CeilForceInt(len, conns), false;
  }

  // start and end of slice i; b[start:end] panics when start > end.
  method SliceBounds(len: nat, partLen: nat, i: nat) returns (start: nat, end: nat)
    ensures start == i * partLen && end == Min(start + partLen, len)
    ensures start <= end <==> InRange(len, partLen, i)
  {
    start := i * partLen;
    end := Min(start + partLen, len);
  }

  // What connection i does with its slice.
  method ReadSlice(b: array<byte>, w: nat, i: nat, start: nat, end: nat, data: seq<byte>)
    requires InRange(b.Length, w, i) && start == i * w && end == Min(start + w, b.Length)
    modifies b
    ensures b[..] == SetChunk(old(b[..]), w, i, data)
  {
    CopyInto(b, start, end, data);
  }

  method ReadSlices(b: array<byte>, partLen: nat, arriving: seq<seq<byte>>) returns (panicked: bool)
    modifies b
    ensures panicked == !AllInRange(b.Length, partLen, |arriving|)
    ensures !panicked ==> b[..] == Filled(old(b[..]), partLen, arriving, |arriving|)
  {
    ghost var before := b[..];
    var conns := |arriving|;
    var i := 0;
    while i < conns
      invariant 0 <= i <= conns
      invariant AllInRange(b.Length, partLen, i)
      invariant b[..] == Filled(before, partLen, arriving, i)
    {
      var start, end := SliceBounds(b.Length, partLen, i);
      if start > end {
        return true;
      }
      ReadSlice(b, partLen, i, start, end, arriving[i]);
      i := i + 1;
    }
    panicked := false;
  }

  // Writing slice i of the message extends the agreement with it by a slice.
  lemma SetChunkAgrees(b: seq<byte>, src: seq<byte>, w: nat, i: nat, start: int)
    requires |b| == |src| && start == i * w && InRange(|src|, w, i)
    requires forall x :: 0 <= x < start ==> b[x] == src[x]
    ensures forall x :: 0 <= x < start + w && x < |src| ==> SetChunk(b, w, i, Chunk(src, w, i))[x] == src[x]
  {
  }

  // Up to connection n the reader's buffer holds the message.
  lemma {:induction false} FilledPrefix(b: seq<byte>, src: seq<byte>, w: nat, arriving: seq<seq<byte>>, n: nat,
                                        reach: int)
    requires |b| == |src| && n <= |arriving| && reach == n * w
    requires AllInRange(|src|, w, n)
    requires forall i :: 0 <= i < n ==> InRange(|src|, w, i) && arriving[i] == Chunk(src, w, i)
    ensures forall x :: 0 <= x < reach && x < |src| ==> Filled(b, w, arriving, n)[x] == src[x]
  {
    if n > 0 {
      var start := (n - 1) * w;
      assert reach == start + w;
      assert InRange(|src|, w, n - 1);
      FilledPrefix(b, src, w, arriving, n - 1, start);
      SetChunkAgrees(Filled(b, w, arriving, n - 1), src, w, n - 1, start);
    }
  }

  // If each connection delivers the slice that the writer handed to it, the
  // reader's buffer is the message, whatever it held before.
  lemma ReadRestoresWrite(b: seq<byte>, src: seq<byte>, conns: nat, w: nat)
    requires |b| == |src| && Splits(|src|, conns) && w == SliceLen(|src|, conns)
    ensures AllInRange(|b|, w, conns)
    ensures Filled(b, w, Slices(src, conns), conns) == src
  {
    var slices, reach := Slices(src, conns), conns * w;
    SplitsExactlyWhenInRange(|src|, conns);
    CeilDivIsCeiling(|src|, conns);
    assert reach == CeilDiv(|src|, conns) * conns;
    FilledPrefix(b, src, w, slices, conns, reach);
  }
}
