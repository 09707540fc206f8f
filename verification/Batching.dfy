// How one tick of the receiver cuts its ledger into request packets
// (controlplane/controlplane.go:398-441), and what the sender's rate control
// makes of them.
module Batching {
  import opened Utils
  import opened GapLedger
  import opened Messages
  import opened RateControl

  const NUMS_PER_PACKET := 100

  function Pow2(k: nat): (p: nat)
    ensures p >= 1
  {
    if k == 0 then 1 else 2 * Pow2(k - 1)
  }

  // The loop adds the end of a block, not its width, to the start, so the k-th
  // block starts at 100*(2^k - 1).
  function BlockStart(k: nat): nat
  {
    NUMS_PER_PACKET * (Pow2(k) - 1)
  }

  function BlockEnd(len: nat, k: nat): int
  {
    Min(BlockStart(k) + NUMS_PER_PACKET, len)
  }

  lemma BlockStartDoubles(k: nat)
    ensures BlockStart(k + 1) == 2 * BlockStart(k) + NUMS_PER_PACKET
  {
  }

  lemma {:induction false} BlockStartsIncrease(j: nat, k: nat)
    requires j < k
    ensures BlockStart(j) + NUMS_PER_PACKET <= BlockStart(k)
    decreases k
  {
    BlockStartDoubles(k - 1);
    if j < k - 1 {
      BlockStartsIncrease(j, k - 1);
    }
  }

  // At least one packet is sent; later ones while their start is in the list.
  predicate IsBlockCount(len: nat, n: nat)
  {
    && n >= 1
    && BlockStart(n) >= len
    && (n == 1 || BlockStart(n - 1) < len)
  }

  function NumBlocksFrom(len: nat, k: nat): (n: nat)
    requires k >= 1 && (k == 1 || BlockStart(k - 1) < len)
    ensures IsBlockCount(len, n)
    decreases if BlockStart(k) >= len then 0 else len - BlockStart(k)
  {
    if BlockStart(k) >= len then k else
      BlockStartDoubles(k);
      NumBlocksFrom(len, k + 1)
  }

  function NumBlocks(len: nat): (n: nat)
    ensures IsBlockCount(len, n)
  {
    NumBlocksFrom(len, 1)
  }

  lemma BlockCountIsUnique(len: nat, m: nat, n: nat)
    requires IsBlockCount(len, m) && IsBlockCount(len, n)
    ensures m == n
  {
    if m < n {
      if m < n - 1 {
        BlockStartsIncrease(m, n - 1);
      }
    } else if n < m {
      if n < m - 1 {
        BlockStartsIncrease(n, m - 1);
      }
    }
  }

  lemma BlockInRange(len: nat, k: nat)
    requires k < NumBlocks(len)
    ensures BlockStart(k) <= BlockEnd(len, k) <= len
    ensures len > 0 ==> BlockStart(k) < len
  {
    if 0 < k < NumBlocks(len) - 1 {
      BlockStartsIncrease(k, NumBlocks(len) - 1);
    }
  }

  predicate InBlock(len: nat, k: nat, x: int)
  {
    BlockStart(k) <= x < BlockEnd(len, k)
  }

  // The blocks of a tick do not overlap.
  lemma BlocksDisjoint(len: nat, j: nat, k: nat, x: int)
    requires j != k && InBlock(len, j, x)
    ensures !InBlock(len, k, x)
  {
    if j < k {
      BlockStartsIncrease(j, k);
    } else {
      BlockStartsIncrease(k, j);
    }
  }

  ghost predicate Requested(len: nat, x: int)
  {
    exists k: nat :: k < NumBlocks(len) && InBlock(len, k, x)
  }

  lemma ShortListBlocks(len: nat)
    requires len <= 200
    ensures NumBlocks(len) == if len <= 100 then 1 else 2
    ensures BlockStart(0) == 0 && BlockStart(1) == 100
  {
    BlockStartDoubles(0);
    BlockStartDoubles(1);
    BlockCountIsUnique(len, NumBlocks(len), if len <= 100 then 1 else 2);
  }

  // They cover the whole list exactly when it has at most 200 entries.
  lemma BlocksCoverExactlyUpTo200(len: nat)
    ensures (forall x :: 0 <= x < len ==> Requested(len, x)) <==> len <= 200
  {
    if len <= 200 {
      ShortListBlocks(len);
      forall x | 0 <= x < len ensures Requested(len, x) {
        assert InBlock(len, if x < 100 then 0 else 1, x);
      }
    } else {
      BlockStartDoubles(0);
      BlockStartDoubles(1);
      forall k: nat | k < NumBlocks(len) ensures !InBlock(len, k, 200) {
        if k >= 2 {
          assert BlockStart(2) == 300;
          if k > 2 {
            BlockStartsIncrease(2, k);
          }
        }
      }
      assert !Requested(len, 200);
    }
  }

  // ----------------------------------------------------- the request packets

  datatype TickInfo = TickInfo(partId: int, recvPackets: int, transactionId: int, requestSequenceId: int)

  function RequestPacket(l: Ledger, info: TickInfo, k: nat): (a: AckPacket)
    requires Parallel(l) && k < NumBlocks(|l.nums|)
    ensures |a.missingSequenceNumbers| == |a.missingSequenceNumberOffsets|
  {
    var len := |l.nums|;
    BlockInRange(len, k);
    AckPacket(info.partId, l.highest, CeilForceInt(len, NUMS_PER_PACKET), k,
              l.nums[BlockStart(k)..BlockEnd(len, k)], l.offs[BlockStart(k)..BlockEnd(len, k)],
              info.transactionId, info.requestSequenceId, info.recvPackets, false)
  }

  // What the packet with index k of a tick says, field by field.
  ghost predicate Reports(a: AckPacket, l: Ledger, partId: int, stored: int, txId: int, requestId: int, k: nat)
  {
    && a.partId == partId && a.lastSequenceNumber == l.highest && a.numPackets == stored && !a.partFinished
    && a.transactionId == txId && a.requestSequenceId == requestId && a.packetTxIndex == k
    && (a.numPacketsPerTx - 1) * 100 < |l.nums| <= a.numPacketsPerTx * 100
    && Carries(a, l, 100 * (Pow2(k) - 1))
  }

  // It carries the entries from start on, up to a hundred of them.
  ghost predicate Carries(a: AckPacket, l: Ledger, start: nat)
  {
    && |a.missingSequenceNumbers| == |a.missingSequenceNumberOffsets| == Min(100, |l.nums| - start)
    && forall i :: 0 <= i < |a.missingSequenceNumbers| ==>
         && start + i < |l.nums| == |l.offs|
         && a.missingSequenceNumbers[i] == l.nums[start + i]
         && a.missingSequenceNumberOffsets[i] == l.offs[start + i]
  }

  lemma RequestReports(l: Ledger, info: TickInfo, k: nat)
    requires Parallel(l) && k < NumBlocks(|l.nums|)
    ensures Reports(RequestPacket(l, info, k), l, info.partId, info.recvPackets, info.transactionId,
                    info.requestSequenceId, k)
  {
    CeilForceIntIsCeiling(|l.nums|, 100);
    RequestCarries(l, info, k);
  }

  lemma RequestCarries(l: Ledger, info: TickInfo, k: nat)
    requires Parallel(l) && k < NumBlocks(|l.nums|)
    ensures Carries(RequestPacket(l, info, k), l, 100 * (Pow2(k) - 1))
  {
    BlockInRange(|l.nums|, k);
    SliceCarries(RequestPacket(l, info, k), l, BlockStart(k), BlockEnd(|l.nums|, k));
  }

  lemma SliceCarries(a: AckPacket, l: Ledger, start: nat, end: int)
    requires Parallel(l) && start <= end == Min(start + 100, |l.nums|)
    requires a.missingSequenceNumbers == l.nums[start..end] && a.missingSequenceNumberOffsets == l.offs[start..end]
    ensures Carries(a, l, start)
  {
  }

  // Every packet of a tick names the part, the highest number, the stored packets
  // and the request it belongs to.
  lemma TickReports(l: Ledger, info: TickInfo, before: seq<AckPacket>, after: seq<AckPacket>)
    requires Parallel(l) && after == before + Tick(l, info)
    ensures forall j :: |before| <= j < |after| ==>
              Reports(after[j], l, info.partId, info.recvPackets, info.transactionId, info.requestSequenceId,
                      j - |before|)
  {
    forall j | |before| <= j < |after|
      ensures Reports(after[j], l, info.partId, info.recvPackets, info.transactionId, info.requestSequenceId,
                      j - |before|)
    {
      RequestReports(l, info, j - |before|);
    }
  }

  function RequestPackets(l: Ledger, info: TickInfo, n: nat): (r: seq<AckPacket>)
    requires Parallel(l) && n <= NumBlocks(|l.nums|)
    ensures |r| == n
    ensures forall k :: 0 <= k < n ==> r[k] == RequestPacket(l, info, k)
  {
    if n == 0 then [] else RequestPackets(l, info, n - 1) + [RequestPacket(l, info, n - 1)]
  }

  // All packets of a tick; none before the first data packet.
  function Tick(l: Ledger, info: TickInfo): (r: seq<AckPacket>)
    requires Parallel(l)
    ensures |r| == if l.highest < 1 then 0 else NumBlocks(|l.nums|)
    ensures forall k :: 0 <= k < |r| ==> r[k] == RequestPacket(l, info, k)
  {
    if l.highest < 1 then [] else RequestPackets(l, info, NumBlocks(|l.nums|))
  }

  // ------------------------------------------- agreement with rate control

  function HandleAll(rc: Rc, msgs: seq<AckPacket>): Rc
  {
    if |msgs| == 0 then rc
    else AddAck(HandleAll(rc, msgs[..|msgs| - 1]), msgs[|msgs| - 1])
  }

  lemma {:induction false} TwoPowerExceeds(k: nat)
    ensures Pow2(k) >= k + 1
    ensures k >= 2 ==> Pow2(k) > k + 1
  {
    if k > 0 {
      TwoPowerExceeds(k - 1);
    }
  }

  // The k-th packet of a tick closes an epoch only if it is the last one and
  // the ledger has at most 200 entries.
  lemma WhichPacketCloses(l: Ledger, info: TickInfo, k: nat)
    requires Parallel(l) && k < NumBlocks(|l.nums|)
    ensures Closes(RequestPacket(l, info, k)) <==> |l.nums| <= 200 && k == NumBlocks(|l.nums|) - 1
  {
    var len, n := |l.nums|, NumBlocks(|l.nums|);
    var packets := CeilForceInt(len, NUMS_PER_PACKET);
    CeilForceIntIsCeiling(len, NUMS_PER_PACKET);
    BlockStartDoubles(0);
    BlockStartDoubles(1);
    BlockInRange(len, k);
    if len <= 200 {
      BlockCountIsUnique(len, n, if len <= 100 then 1 else 2);
    } else {
      // BlockStart(k) < len gives packets > 2^k - 1, which is at least k.
      TwoPowerExceeds(k);
      assert packets >= Pow2(k);
      assert k <= 1 ==> packets >= 3;
    }
  }

  lemma HandleSnoc(rc: Rc, msgs: seq<AckPacket>, last: AckPacket)
    ensures HandleAll(rc, msgs + [last]) == AddAck(HandleAll(rc, msgs), last)
  {
    assert (msgs + [last])[..|msgs|] == msgs;
  }

  // A message that closes no epoch adds its offsets to what is carried.
  lemma CarryMore(rc: Rc, m: Rc, last: AckPacket, carried: int)
    requires m == rc.(curMissing := carried) && !Closes(last)
    ensures AddAck(m, last) == rc.(curMissing := carried + Total(last.missingSequenceNumberOffsets))
  {
  }

  lemma CarryOneMore(rc: Rc, msgs: seq<AckPacket>, last: AckPacket, m: Rc, r: Rc)
    requires HandleAll(rc, msgs) == m && AddAck(m, last) == r
    ensures HandleAll(rc, msgs + [last]) == r
  {
    HandleSnoc(rc, msgs, last);
  }

  // The offsets that the first n packets carry.
  function OffsetTotal(l: Ledger, info: TickInfo, n: nat): int
    requires Parallel(l) && n <= NumBlocks(|l.nums|)
  {
    if n == 0 then 0
    else OffsetTotal(l, info, n - 1) + Total(RequestPacket(l, info, n - 1).missingSequenceNumberOffsets)
  }

  // The n-th packet of a tick, as an addition to the first n-1.
  lemma TickGrows(l: Ledger, info: TickInfo, n: nat) returns (before: seq<AckPacket>, last: AckPacket)
    requires Parallel(l) && 0 < n <= NumBlocks(|l.nums|)
    ensures before == RequestPackets(l, info, n - 1) && last == RequestPacket(l, info, n - 1)
    ensures RequestPackets(l, info, n) == before + [last]
    ensures OffsetTotal(l, info, n) == OffsetTotal(l, info, n - 1) + Total(last.missingSequenceNumberOffsets)
  {
    before, last := RequestPackets(l, info, n - 1), RequestPacket(l, info, n - 1);
  }

  lemma {:induction false} PrefixAccumulates(rc: Rc, l: Ledger, info: TickInfo, n: nat)
    requires Parallel(l) && n <= NumBlocks(|l.nums|) && rc.curMissing == 0
    requires n < NumBlocks(|l.nums|) || |l.nums| > 200
    ensures HandleAll(rc, RequestPackets(l, info, n)) == rc.(curMissing := OffsetTotal(l, info, n))
  {
    if n > 0 {
      PrefixAccumulates(rc, l, info, n - 1);
      WhichPacketCloses(l, info, n - 1);
      var before, last := TickGrows(l, info, n);
      var m := rc.(curMissing := OffsetTotal(l, info, n - 1));
      CarryMore(rc, m, last, OffsetTotal(l, info, n - 1));
      CarryOneMore(rc, before, last, m, rc.(curMissing := OffsetTotal(l, info, n)));
    }
  }

  lemma OffsetTotalOfShortLedger(l: Ledger, info: TickInfo)
    requires Parallel(l) && |l.nums| <= 200
    ensures OffsetTotal(l, info, NumBlocks(|l.nums|)) == Total(l.offs)
  {
    var len := |l.nums|;
    ShortListBlocks(len);
    var first := RequestPacket(l, info, 0).missingSequenceNumberOffsets;
    assert OffsetTotal(l, info, 1) == Total(first);
    if len <= 100 {
      assert first == l.offs;
    } else {
      var second := RequestPacket(l, info, 1).missingSequenceNumberOffsets;
      assert l.offs == first + second;
      TotalConcat(first, second);
      assert OffsetTotal(l, info, 2) == OffsetTotal(l, info, 1) + Total(second);
    }
  }

  // The epoch that a short ledger's tick closes.
  function EpochOnLedger(rc: Rc, l: Ledger, info: TickInfo): Rc
  {
    var missing := Total(l.offs);
    var loss := if info.recvPackets != rc.curChecked
                then TruncDiv((missing - rc.lastMissing) * 100, info.recvPackets - rc.curChecked)
                else rc.lossPercent;
    Adjust(rc.(lossPercent := loss, lastMissing := missing, curMissing := 0, curChecked := info.recvPackets))
  }

  // If all packets of a tick arrive in order and nothing is carried over, the
  // tick closes exactly one epoch, on the sum of all recorded offsets, when the
  // ledger has at most 200 entries; otherwise it closes none and leaves what it
  // carried to the next tick.
  lemma LedgerAndRateControlAgree(rc: Rc, l: Ledger, info: TickInfo)
    requires Parallel(l) && l.highest >= 1 && rc.curMissing == 0
    ensures HandleAll(rc, Tick(l, info))
         == if |l.nums| <= 200 then EpochOnLedger(rc, l, info)
            else rc.(curMissing := OffsetTotal(l, info, NumBlocks(|l.nums|)))
  {
    var n := NumBlocks(|l.nums|);
    assert Tick(l, info) == RequestPackets(l, info, n);
    if |l.nums| <= 200 {
      ShortTickClosesEpoch(rc, l, info);
    } else {
      PrefixAccumulates(rc, l, info, n);
    }
  }

  lemma ShortTickClosesEpoch(rc: Rc, l: Ledger, info: TickInfo)
    requires Parallel(l) && rc.curMissing == 0 && |l.nums| <= 200
    ensures HandleAll(rc, RequestPackets(l, info, NumBlocks(|l.nums|))) == EpochOnLedger(rc, l, info)
  {
    var prefix, total := AllButLast(rc, l, info);
    var last := LastOfShortTick(l, info, prefix, total);
    CloseAfterPrefix(rc, l, info, prefix, last, total);
  }

  // All packets but the last accumulate.
  lemma AllButLast(rc: Rc, l: Ledger, info: TickInfo) returns (prefix: seq<AckPacket>, total: int)
    requires Parallel(l) && rc.curMissing == 0
    ensures prefix == RequestPackets(l, info, NumBlocks(|l.nums|) - 1)
    ensures total == OffsetTotal(l, info, NumBlocks(|l.nums|) - 1)
    ensures HandleAll(rc, prefix) == rc.(curMissing := total)
  {
    prefix := RequestPackets(l, info, NumBlocks(|l.nums|) - 1);
    total := OffsetTotal(l, info, NumBlocks(|l.nums|) - 1);
    PrefixAccumulates(rc, l, info, NumBlocks(|l.nums|) - 1);
  }

  // The last one closes on the full sum.
  lemma LastOfShortTick(l: Ledger, info: TickInfo, prefix: seq<AckPacket>, total: int) returns (last: AckPacket)
    requires Parallel(l) && |l.nums| <= 200
    requires prefix == RequestPackets(l, info, NumBlocks(|l.nums|) - 1)
    requires total == OffsetTotal(l, info, NumBlocks(|l.nums|) - 1)
    ensures RequestPackets(l, info, NumBlocks(|l.nums|)) == prefix + [last]
    ensures Closes(last) && last.numPackets == info.recvPackets
    ensures total + Total(last.missingSequenceNumberOffsets) == Total(l.offs)
  {
    last := RequestPacket(l, info, NumBlocks(|l.nums|) - 1);
    WhichPacketCloses(l, info, NumBlocks(|l.nums|) - 1);
    OffsetTotalOfShortLedger(l, info);
  }

  lemma CloseAfterPrefix(rc: Rc, l: Ledger, info: TickInfo, prefix: seq<AckPacket>, last: AckPacket, total: int)
    requires HandleAll(rc, prefix) == rc.(curMissing := total)
    requires Closes(last) && last.numPackets == info.recvPackets
    requires total + Total(last.missingSequenceNumberOffsets) == Total(l.offs)
    ensures HandleAll(rc, prefix + [last]) == EpochOnLedger(rc, l, info)
  {
    HandleSnoc(rc, prefix, last);
    CloseOnTotal(rc, rc.(curMissing := total), l, info, last);
  }

  lemma CloseOnTotal(rc: Rc, carried: Rc, l: Ledger, info: TickInfo, last: AckPacket)
    requires carried == rc.(curMissing := carried.curMissing)
    requires Closes(last) && last.numPackets == info.recvPackets
    requires carried.curMissing + Total(last.missingSequenceNumberOffsets) == Total(l.offs)
    ensures AddAck(carried, last) == EpochOnLedger(rc, l, info)
  {
  }
}
