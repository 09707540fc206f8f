// What the control packets in flight say of the receiver, in every run
// (controlplane/controlplane.go:337-356, controlplane/controlplane.go:411-421).
module Requests {
  import opened Utils
  import opened GapLedger
  import opened Reassembly
  import opened Messages
  import opened Batching
  import opened Protocol

  // The highest of some arrivals, and how many of them were stored.
  ghost predicate Sums(seen: seq<int>, highest: int, stored: int)
  {
    && highest in seen && (forall k :: 0 <= k < |seen| ==> seen[k] <= highest)
    && stored == AcceptedCount(seen)
  }

  // Every number asked for lies below the highest.
  ghost predicate AsksBelow(a: AckPacket)
  {
    && |a.missingSequenceNumbers| == |a.missingSequenceNumberOffsets|
    && forall i :: 0 <= i < |a.missingSequenceNumbers| ==>
         1 <= a.missingSequenceNumbers[i]
         <= a.missingSequenceNumbers[i] + a.missingSequenceNumberOffsets[i] - 1 < a.lastSequenceNumber
  }

  // The request was written when the first n numbers had arrived.
  ghost predicate WrittenAt(a: AckPacket, arrivals: seq<int>, n: nat)
  {
    n <= |arrivals| && Sums(arrivals[..n], a.lastSequenceNumber, a.numPackets)
  }

  ghost predicate Tells(p: Params, arrivals: seq<int>, a: AckPacket)
  {
    && a.partId == p.partId
    && if a.partFinished
       then a.missingSequenceNumbers == [] && a.numPackets == AcceptedCount(arrivals)
       else AsksBelow(a) && exists n: nat :: WrittenAt(a, arrivals, n)
  }

  lemma {:induction false} HighestArrived(arrivals: seq<int>)
    requires Run(arrivals).highest >= 1
    ensures Run(arrivals).highest in arrivals
  {
    var p, s := arrivals[..|arrivals| - 1], arrivals[|arrivals| - 1];
    ShapeOfRun(p);
    ArriveKeepsShape(Run(p), s);
    if s <= Run(p).highest {
      HighestArrived(p);
    }
  }

  lemma TickTells(p: Params, arrivals: seq<int>, info: TickInfo, k: nat)
    requires info.partId == p.partId && info.recvPackets == AcceptedCount(arrivals)
    requires k < |Tick(Run(arrivals), info)|
    ensures Tells(p, arrivals, Tick(Run(arrivals), info)[k])
  {
    var l, a := Run(arrivals), Tick(Run(arrivals), info)[k];
    RequestReports(l, info, k);
    ShapeOfRun(arrivals);
    HighestArrived(arrivals);
    BlockAsksBelow(a, l, 100 * (Pow2(k) - 1));
    assert arrivals[..|arrivals|] == arrivals;
    assert WrittenAt(a, arrivals, |arrivals|);
  }

  lemma BlockAsksBelow(a: AckPacket, l: Ledger, start: nat)
    requires Shape(l) && Carries(a, l, start) && a.lastSequenceNumber == l.highest
    ensures AsksBelow(a)
  {
    forall i | 0 <= i < |a.missingSequenceNumbers|
      ensures 1 <= a.missingSequenceNumbers[i]
           <= a.missingSequenceNumbers[i] + a.missingSequenceNumberOffsets[i] - 1 < a.lastSequenceNumber
    {
      assert EntryInside(l, start + i);
    }
  }

  // More arrivals do not change what was written before.
  lemma StillTells(p: Params, arrivals: seq<int>, later: seq<int>, a: AckPacket)
    requires Tells(p, arrivals, a) && arrivals <= later && (a.partFinished ==> later == arrivals)
    ensures Tells(p, later, a)
  {
    if !a.partFinished {
      var n: nat :| WrittenAt(a, arrivals, n);
      assert later[..n] == arrivals[..n];
      assert WrittenAt(a, later, n);
    }
  }

  lemma ArrivalsGrow(p: Params, s: State, step: Step)
    requires WellFormed(p)
    ensures s.receiver.arrivals <= Next(p, s, step).receiver.arrivals
    ensures FinishWritten(s) ==> Next(p, s, step).receiver.arrivals == s.receiver.arrivals
  {
  }

  // Control packets are written by a tick and at the end of ReadPart only.
  lemma WrittenBy(p: Params, s: State, step: Step, a: AckPacket)
    requires WellFormed(p) && a in Next(p, s, step).control && a !in s.control
    ensures var reader := s.receiver.reader;
            || (step.FinishRead? && a == PartFinish(p.partId, reader.recvPackets))
            || (step.RequestTick? && Parallel(reader.rx.ledger)
                && a in Tick(reader.rx.ledger,
                             TickInfo(p.partId, reader.recvPackets, step.txId, step.requestSequenceId)))
    ensures Next(p, s, step).receiver.arrivals == s.receiver.arrivals
  {
  }

  lemma NewTells(p: Params, s: State, step: Step, a: AckPacket)
    requires WellFormed(p) && Inv(p, s) && a in Next(p, s, step).control && a !in s.control
    ensures Tells(p, Next(p, s, step).receiver.arrivals, a)
  {
    var r := s.receiver;
    WrittenBy(p, s, step, a);
    LedgerIsRun(p, r);
    if step.RequestTick? {
      var info := TickInfo(p.partId, r.reader.recvPackets, step.txId, step.requestSequenceId);
      var k :| 0 <= k < |Tick(r.reader.rx.ledger, info)| && Tick(r.reader.rx.ledger, info)[k] == a;
      TickTells(p, r.arrivals, info, k);
    }
  }

  // In every reachable state each request in flight names the part, and for some
  // number of arrivals its highest number and its count of stored packets are
  // theirs; it asks only for numbers below that. A finish packet names the part and
  // counts the packets stored in all.
  lemma {:induction false} RequestsTell(p: Params, steps: seq<Step>)
    requires WellFormed(p)
    ensures forall a :: a in After(p, steps).control ==> Tells(p, After(p, steps).receiver.arrivals, a)
  {
    if |steps| > 0 {
      var before, step := steps[..|steps| - 1], steps[|steps| - 1];
      var s := After(p, before);
      RequestsTell(p, before);
      InvHolds(p, before);
      ArrivalsGrow(p, s, step);
      forall a | a in After(p, steps).control ensures Tells(p, After(p, steps).receiver.arrivals, a) {
        if a in s.control {
          StillTells(p, s.receiver.arrivals, After(p, steps).receiver.arrivals, a);
        } else {
          NewTells(p, s, step, a);
        }
      }
    }
  }

  // The k-th request of a tick.
  lemma TickWrites(p: Params, s: State, txId: int, requestId: int, k: nat) returns (a: AckPacket)
    requires WellFormed(p) && Parallel(s.receiver.reader.rx.ledger) && s.receiver.reader.rx.ledger.highest >= 1
    requires s.receiver.phase != Stopped && s.receiver.phase != Dead
    requires k < NumBlocks(|s.receiver.reader.rx.ledger.nums|)
    ensures a in RequestTickStep(p, s, txId, requestId).control
    ensures Reports(a, s.receiver.reader.rx.ledger, p.partId, s.receiver.reader.recvPackets, txId, requestId, k)
  {
    var l, info := s.receiver.reader.rx.ledger, TickInfo(p.partId, s.receiver.reader.recvPackets, txId, requestId);
    RequestReports(l, info, k);
    a := Tick(l, info)[k];
  }

  // In every run a tick writes each of its requests, until the ticks are stopped:
  // while ReadPart reads or is blocked, and after it has returned.
  lemma TicksUntilStopped(p: Params, steps: seq<Step>, txId: int, requestId: int, k: nat) returns (a: AckPacket)
    requires WellFormed(p) && After(p, steps).receiver.reader.rx.ledger.highest >= 1
    requires k < NumBlocks(|After(p, steps).receiver.reader.rx.ledger.nums|)
    ensures var s, s' := After(p, steps), Next(p, After(p, steps), RequestTick(txId, requestId));
            if s.receiver.phase == Stopped then s' == s
            else && a in s'.control
                 && Reports(a, s.receiver.reader.rx.ledger, p.partId, s.receiver.reader.recvPackets, txId, requestId, k)
  {
    var s := After(p, steps);
    InvHolds(p, steps);
    LedgerIsRun(p, s.receiver);
    if s.receiver.phase == Stopped {
      a := PartFinish(p.partId, 0);
    } else {
      a := TickWrites(p, s, txId, requestId, k);
    }
  }
}
