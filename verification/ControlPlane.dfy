// The control plane of one connection (controlplane/controlplane.go).
module ControlPlane {
  import opened Utils
  import opened GapLedger
  import opened Messages
  import opened Batching
  import opened Merging
  import opened PartContexts
  import Dataplane
  import RateControl

  class ControlPlane {
    const dataplane: Dataplane.SCIONDataplane
    const ratecontrol: RateControl.RateControl
    const partContext: PartContext
    var state: Dataplane.State
    var currentPartId: int
    // The control packets written to the connection so far, before encoding.
    var written: seq<AckPacket>

    constructor (dataplane: Dataplane.SCIONDataplane, ratecontrol: RateControl.RateControl, partContext: PartContext)
      ensures this.dataplane == dataplane && this.ratecontrol == ratecontrol && this.partContext == partContext
      ensures currentPartId == 0 && written == []
    {
      this.dataplane := dataplane;
      this.ratecontrol := ratecontrol;
      this.partContext := partContext;
      state := Dataplane.Sending;
      currentPartId, written := 0, [];
    }

    method NextPartId() returns (id: int)
      modifies this`currentPartId
      ensures id == currentPartId == old(currentPartId) + 1
    {
      currentPartId := currentPartId + 1;
      id := currentPartId;
    }

    ghost function Wanted(): Wanted
      reads partContext`missingSequenceNums, partContext`missingSequenceNumOffsets
    {
      Merging.Wanted(partContext.missingSequenceNums, partContext.missingSequenceNumOffsets)
    }

    // panicked: an entry of the request has no offset.
    method HandlePartAckPacket(p: AckPacket) returns (finished: bool, panicked: bool)
      modifies this`state, dataplane`state, ratecontrol
      modifies partContext`missingSequenceNums, partContext`missingSequenceNumOffsets
      ensures finished == p.partFinished
      ensures finished ==> !panicked && state == dataplane.state == Dataplane.Pending
                           && Wanted() == old(Wanted()) && ratecontrol.View() == old(ratecontrol.View())
      ensures !finished ==> state == old(state) && dataplane.state == old(dataplane.state)
                            && ratecontrol.View() == RateControl.AddAck(old(ratecontrol.View()), p)
      ensures !finished ==>
                Merged(Wanted(), panicked) == TryMerge(old(Wanted()), p.missingSequenceNumbers,
                                                       p.missingSequenceNumberOffsets, |p.missingSequenceNumbers|)
    {
      if p.partFinished {
        state := Dataplane.Pending;
        dataplane.SetState(Dataplane.Pending);
        return true, false;
      }
      ratecontrol.AddAckMessage(p);
      var ok := MergeRequest(p);
      finished, panicked := false, !ok;
    }

    // The loop over the entries of the request.
    method MergeRequest(p: AckPacket) returns (ok: bool)
      modifies partContext`missingSequenceNums, partContext`missingSequenceNumOffsets
      ensures Merged(Wanted(), !ok) == TryMerge(old(Wanted()), p.missingSequenceNumbers,
                                                p.missingSequenceNumberOffsets, |p.missingSequenceNumbers|)
    {
      ghost var nums, offs := p.missingSequenceNumbers, p.missingSequenceNumberOffsets;
      for i := 0 to |p.missingSequenceNumbers|
        invariant Merged(Wanted(), false) == TryMerge(old(Wanted()), nums, offs, i)
      {
        var v := p.missingSequenceNumbers[i];
        var index := IndexOf(v, partContext.missingSequenceNums);
        if index < 0 {
          if i >= |p.missingSequenceNumberOffsets| {
            PanicStays(old(Wanted()), nums, offs, i + 1, |nums|);
            return false;
          }
          partContext.missingSequenceNums := partContext.missingSequenceNums + [v];
          partContext.missingSequenceNumOffsets :=
            partContext.missingSequenceNumOffsets + [p.missingSequenceNumberOffsets[i]];
        }
      }
      ok := true;
    }

    // Tells the sender that ReadPart has returned.
    method SendPartFinish()
      modifies this`written
      ensures written == old(written) + [PartFinish(partContext.partId, partContext.recvPackets)]
      ensures var p := written[|old(written)|];
              && p.partFinished && p.partId == partContext.partId && p.numPackets == partContext.recvPackets
              && p.missingSequenceNumbers == [] && p.missingSequenceNumberOffsets == []
    {
      var p := AckPacket(partContext.partId, 0, 0, 0, [], [], 0, 0, partContext.recvPackets, true);
      written := written + [p];
    }

    // One tick of requestRetransfers; repairs counts how often the branch that
    // repairs the start was taken.
    method RequestRetransfers(txId: int, requestSequenceId: int) returns (repairs: int)
      requires partContext.Paired()
      modifies this`written
      ensures written == old(written)
                         + Tick(partContext.Ledger(),
                                TickInfo(partContext.partId, partContext.recvPackets, txId, requestSequenceId))
      ensures forall j :: |old(written)| <= j < |written| ==>
                Reports(written[j], partContext.Ledger(), partContext.partId, partContext.recvPackets,
                        txId, requestSequenceId, j - |old(written)|)
      ensures repairs == 0
    {
      ghost var before := written;
      repairs := WriteRequests(txId, requestSequenceId);
      TickReports(partContext.Ledger(),
                  TickInfo(partContext.partId, partContext.recvPackets, txId, requestSequenceId), before, written);
    }

    // The loop of a tick.
    method WriteRequests(txId: int, requestSequenceId: int) returns (repairs: int)
      requires partContext.Paired()
      modifies this`written
      ensures written == old(written)
                         + Tick(partContext.Ledger(),
                                TickInfo(partContext.partId, partContext.recvPackets, txId, requestSequenceId))
      ensures repairs == 0
    {
      repairs := 0;
      if partContext.highestSequenceNumber < 1 {
        return;
      }
      var missingNumsPerPacket := 100;
      var missingNumIndex, start, index := 0, 0, 0;
      var len := |partContext.missingSequenceNums|;
      ghost var l, before := partContext.Ledger(), written;
      ghost var info := TickInfo(partContext.partId, partContext.recvPackets, txId, requestSequenceId);
      while len == 0 || missingNumIndex < len
        invariant missingNumIndex == start >= 0 && repairs == 0
        invariant index <= NumBlocks(len) && written == before + RequestPackets(l, info, index)
        invariant start >= len > 0 ==> index == NumBlocks(len)
        invariant start < len || len == 0 ==> index < NumBlocks(len) && start == BlockStart(index)
        decreases len - start
      {
        BlockInRange(len, index);
        var min := Min(start + missingNumsPerPacket, len);
        if start > min {
          start := min;
          repairs := repairs + 1;
        }
        WriteRequest(index, start, min, txId, requestSequenceId);
        NextBlock(len, index);
        index := index + 1;
        missingNumIndex := missingNumIndex + min;
        start := start + min;
        if min == 0 {
          break;
        }
      }
    }

    // The request packet for the entries start..min.
    method WriteRequest(index: nat, start: int, min: int, txId: int, requestSequenceId: int)
      requires partContext.Paired() && index < NumBlocks(|partContext.missingSequenceNums|)
      requires start == BlockStart(index) && min == BlockEnd(|partContext.missingSequenceNums|, index)
      modifies this`written
      ensures var info := TickInfo(partContext.partId, partContext.recvPackets, txId, requestSequenceId);
              written == old(written) + [RequestPacket(partContext.Ledger(), info, index)]
    {
      var nums, offs := partContext.missingSequenceNums, partContext.missingSequenceNumOffsets;
      BlockInRange(|nums|, index);
      var p := AckPacket(partContext.partId, partContext.highestSequenceNumber,
                         CeilForceInt(|nums|, 100), index,
                         nums[start..min], offs[start..min],
                         txId, requestSequenceId, partContext.recvPackets, false);
      written := written + [p];
    }
  }

  // After block k comes block k+1 if that starts inside the list, and the end
  // of the loop otherwise.
  lemma NextBlock(len: nat, k: nat)
    requires k < NumBlocks(len)
    ensures BlockStart(k) + BlockEnd(len, k) < len ==>
              k + 1 < NumBlocks(len) && BlockStart(k) + BlockEnd(len, k) == BlockStart(k + 1)
    ensures BlockStart(k) + BlockEnd(len, k) >= len ==> k + 1 == NumBlocks(len)
  {
    BlockStartDoubles(k);
    BlockInRange(len, k);
    if BlockStart(k + 1) >= len {
      BlockCountIsUnique(len, NumBlocks(len), k + 1);
    }
    if k == 0 {
      BlockStartDoubles(0);
    }
  }
}
