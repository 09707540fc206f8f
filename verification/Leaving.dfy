// When the sender leaves the retransfer loop: exactly unless the finish packet
// was handled before it entered the loop (dataplane/dataplane.go:157-160,
// controlplane/controlplane.go:298-306).
module Leaving {
  import opened Utils
  import opened Codec
  import opened GapLedger
  import opened Reassembly
  import opened Messages
  import opened Merging
  import opened Protocol
  import opened Completion

  // ---------------------------------------------------- a finish in flight

  ghost predicate FinishInFlight(s: State)
  {
    exists a :: a in s.control && a.partFinished
  }

  lemma FinishStaysInFlight(p: Params, s: State, step: Step)
    requires WellFormed(p) && (FinishWritten(s) ==> FinishInFlight(s))
    ensures var s' := Next(p, s, step); FinishWritten(s') ==> FinishInFlight(s')
  {
    var s' := Next(p, s, step);
    ControlOnlyGrows(p, s, step);
    if FinishWritten(s) {
      var a :| a in s.control && a.partFinished;
      assert a in s'.control;
    } else if FinishWritten(s') {
      assert step.FinishRead?;
      assert PartFinish(p.partId, s.receiver.reader.recvPackets) in s'.control;
    }
  }

  lemma ControlOnlyGrows(p: Params, s: State, step: Step)
    requires WellFormed(p)
    ensures s.control <= Next(p, s, step).control
  {
  }

  lemma {:induction false} FinishIsInFlight(p: Params, steps: seq<Step>)
    requires WellFormed(p)
    ensures FinishWritten(After(p, steps)) ==> FinishInFlight(After(p, steps))
  {
    if |steps| > 0 {
      FinishIsInFlight(p, steps[..|steps| - 1]);
      FinishStaysInFlight(p, After(p, steps[..|steps| - 1]), steps[|steps| - 1]);
    }
  }

  // ------------------------------------------------------ the way to the test

  // What the sender's own steps leave alone.
  predicate SameOtherwise(s: State, s': State)
  {
    s'.receiver == s.receiver && s'.control == s.control && s'.sender.handling == s.sender.handling
  }

  // The sender writes the rest of the part and enters the loop.
  lemma {:induction false} FinishWriting(p: Params, s: State) returns (steps: seq<Step>, s': State)
    requires WellFormed(p) && s.sender.phase.Writing?
    ensures s' == RunFrom(p, s, steps) && SameOtherwise(s, s')
    ensures s'.sender.phase.AtLoopTest? && s'.sender.retransferring
    decreases Count(p) - s.sender.phase.i
  {
    var step := if s.sender.phase.i < Count(p) then SendOriginal else EnterLoop;
    var s0 := Next(p, s, step);
    RunFromOne(p, s, step);
    if step == EnterLoop {
      steps, s' := [step], s0;
    } else {
      var rest;
      rest, s' := FinishWriting(p, s0);
      Join(p, s, [step], s0, rest, s');
      steps := [step] + rest;
    }
  }

  // The sender goes on with a pass until its end.
  lemma {:induction false} FinishPass(p: Params, s: State, left: nat, j: int) returns (steps: seq<Step>, s': State)
    requires WellFormed(p) && Inv(p, s) && s.sender.phase.InRound?
    requires left == s.sender.phase.snap - s.sender.phase.i
    requires j == if left > 0 then s.sender.wanted.offs[s.sender.phase.i] - s.sender.phase.j else 0
    ensures s' == RunFrom(p, s, steps) && SameOtherwise(s, s')
    ensures s'.sender.phase.AtLoopTest? && s'.sender.retransferring == s.sender.retransferring
    decreases left, j
  {
    var step := if left == 0 then EndRound else SendAgain;
    var s0 := Next(p, s, step);
    RunFromOne(p, s, step);
    if left == 0 {
      steps, s' := [step], s0;
    } else {
      NextKeepsInv(p, s, step);
      var left0, j0 := PassGoesOn(p, s, left, j);
      var rest;
      rest, s' := FinishPass(p, s0, left0, j0);
      Join(p, s, [step], s0, rest, s');
      steps := [step] + rest;
    }
  }

  // A step inside a pass sends a packet or goes to the next entry.
  lemma PassGoesOn(p: Params, s: State, left: nat, j: int) returns (left0: nat, j0: int)
    requires WellFormed(p) && Inv(p, s) && s.sender.phase.InRound?
    requires left == s.sender.phase.snap - s.sender.phase.i && left > 0
    requires j == s.sender.wanted.offs[s.sender.phase.i] - s.sender.phase.j
    ensures j >= 0
    ensures var s0 := SendAgainStep(p, s);
            && SameOtherwise(s, s0) && s0.sender.retransferring == s.sender.retransferring
            && s0.sender.phase.InRound? && s0.sender.wanted == s.sender.wanted
            && left0 == s0.sender.phase.snap - s0.sender.phase.i
            && s0.sender.phase.snap <= |s.sender.wanted.nums| == |s.sender.wanted.offs|
            && j0 == (if left0 > 0 then s0.sender.wanted.offs[s0.sender.phase.i] - s0.sender.phase.j else 0)
            && (left0 < left || (left0 == left && j0 < j))
  {
    var InRound(snap, i, k) := s.sender.phase;
    var Wanted(nums, offs) := s.sender.wanted;
    if k < offs[i] {
      SendAgainIsOriginal(p, nums[i] + k);
      left0, j0 := left, j - 1;
    } else {
      left0 := left - 1;
      j0 := if left0 > 0 then offs[i + 1] else 0;
    }
  }

  // At the test the finish packet is handled, if it was not before, and the
  // sender leaves.
  lemma LeaveFromTest(p: Params, s: State) returns (steps: seq<Step>, s': State)
    requires WellFormed(p) && s.sender.phase.AtLoopTest?
    requires if s.sender.handling then FinishInFlight(s) else !s.sender.retransferring
    ensures s' == RunFrom(p, s, steps) && s'.sender.phase.Left?
  {
    if s.sender.handling {
      var a :| a in s.control && a.partFinished;
      var s0 := Next(p, s, HandleControl(a));
      RunFromOne(p, s, HandleControl(a));
      Extend(p, s, [HandleControl(a)], s0, LeaveLoop);
      steps, s' := [HandleControl(a)] + [LeaveLoop], Next(p, s0, LeaveLoop);
    } else {
      RunFromOne(p, s, LeaveLoop);
      steps, s' := [LeaveLoop], Next(p, s, LeaveLoop);
    }
  }

  lemma WayOut(p: Params, s: State) returns (steps: seq<Step>, s': State)
    requires WellFormed(p) && Inv(p, s) && FinishInFlight(s) && !Stranded(s)
    ensures s' == RunFrom(p, s, steps) && s'.sender.phase.Left?
  {
    if s.sender.phase.Left? {
      steps, s' := [], s;
    } else {
      var steps0, s0 := WayToTest(p, s);
      var steps1;
      steps1, s' := LeaveFromTest(p, s0);
      Join(p, s, steps0, s0, steps1, s');
      steps := steps0 + steps1;
    }
  }

  lemma WayToTest(p: Params, s: State) returns (steps: seq<Step>, s': State)
    requires WellFormed(p) && Inv(p, s) && !s.sender.phase.Left?
    ensures s' == RunFrom(p, s, steps) && s'.sender.phase.AtLoopTest? && SameOtherwise(s, s')
    ensures s.sender.phase.Writing? || s'.sender.retransferring == s.sender.retransferring
  {
    match s.sender.phase
    case Writing(_) => steps, s' := FinishWriting(p, s);
    case InRound(snap, i, j) =>
      steps, s' := FinishPass(p, s, snap - i, if i < snap then s.sender.wanted.offs[i] - j else 0);
    case AtLoopTest => steps, s' := [], s;
  }

  // Once the receiver has finished, the sender can still leave the loop if and
  // only if it is not stranded.
  lemma LeavesUnlessStranded(p: Params, past: seq<Step>)
    requires WellFormed(p) && FinishWritten(After(p, past))
    ensures (exists later :: After(p, past + later).sender.phase.Left?) <==> !Stranded(After(p, past))
  {
    var s := After(p, past);
    if Stranded(s) {
      forall later: seq<Step> ensures !After(p, past + later).sender.phase.Left? {
        RunFromConcat(p, Init(p), past, later);
        StrandedForever(p, s, later);
      }
    } else {
      InvHolds(p, past);
      FinishIsInFlight(p, past);
      var later, s' := WayOut(p, s);
      RunFromConcat(p, Init(p), past, later);
      assert After(p, past + later).sender.phase.Left?;
    }
  }

  // ------------------------------------------------------- the lost race

  // n packets written and read at once, none lost.
  ghost predicate Streamed(p: Params, s: State, n: nat)
    requires WellFormed(p)
  {
    ReadingExactly(p, s, EntryNumbers(1, n)) && s.sender == Sender(Writing(n), false, Wanted([], []), true)
  }

  lemma StreamSend(p: Params, s: State, arrivals: seq<int>, n: nat) returns (sent: State, datagram: seq<byte>)
    requires WellFormed(p) && ReadingExactly(p, s, arrivals) && n < Count(p)
    requires s.sender == Sender(Writing(n), false, Wanted([], []), true)
    ensures datagram == PartPacketBytes(p.partId, p.pl, p.src, n + 1) && datagram in sent.data
    ensures sent == SendOriginalStep(p, s) && ReadingExactly(p, sent, arrivals)
    ensures sent.sender == Sender(Writing(n + 1), false, Wanted([], []), true)
  {
    SendOriginalKeepsInv(p, s);
    sent, datagram := SendOriginalStep(p, s), PartPacketBytes(p.partId, p.pl, p.src, n + 1);
  }

  lemma StreamOne(p: Params, s: State, n: nat, arrivals: seq<int>, all: seq<int>)
    returns (sent: State, datagram: seq<byte>, s': State)
    requires WellFormed(p) && Streamed(p, s, n) && n < Count(p)
    requires arrivals == EntryNumbers(1, n) && all == arrivals + [n + 1] && NoRepeats(all)
    ensures sent == SendOriginalStep(p, s) && s' == ReadStep(p, sent, datagram)
    ensures ReadingExactly(p, s', all) && s'.sender == Sender(Writing(n + 1), false, Wanted([], []), true)
  {
    sent, datagram := StreamSend(p, s, arrivals, n);
    s' := ReadFresh(p, sent, arrivals, datagram, n + 1);
  }

  lemma {:induction false} StreamAll(p: Params, n: nat) returns (steps: seq<Step>, s: State)
    requires WellFormed(p) && n <= Count(p)
    ensures s == After(p, steps) && Streamed(p, s, n)
  {
    if n == 0 {
      steps, s := StreamNone(p);
    } else {
      var steps0, s0 := StreamAll(p, n - 1);
      steps, s := StreamOneMore(p, steps0, s0, n);
    }
  }

  lemma StreamNone(p: Params) returns (steps: seq<Step>, s: State)
    requires WellFormed(p)
    ensures s == After(p, steps) && Streamed(p, s, 0)
  {
    steps, s := [], Init(p);
    InitInv(p);
  }

  lemma StreamOneMore(p: Params, steps0: seq<Step>, s0: State, n: nat) returns (steps: seq<Step>, s: State)
    requires WellFormed(p) && 0 < n <= Count(p) && s0 == After(p, steps0) && Streamed(p, s0, n - 1)
    ensures s == After(p, steps) && Streamed(p, s, n)
  {
    assert EntryNumbers(1, n) == EntryNumbers(1, n - 1) + [n];
    var sent, datagram;
    sent, datagram, s := StreamOne(p, s0, n - 1, EntryNumbers(1, n - 1), EntryNumbers(1, n));
    ExtendTwice(p, Init(p), steps0, s0, SendOriginal, sent, datagram, s);
    steps := steps0 + [SendOriginal] + [Read(datagram)];
  }

  // The receiver finishes and the sender handles that, still writing.
  lemma FinishEarly(p: Params, s: State) returns (steps: seq<Step>, s': State)
    requires WellFormed(p) && s.sender.phase.Writing? && s.sender.handling
    requires s.receiver.phase == Reading && |s.receiver.arrivals| + s.receiver.foreign >= Count(p)
    ensures s' == RunFrom(p, s, steps) && Stranded(s') && FinishWritten(s')
    ensures s'.receiver.reader == s.receiver.reader
  {
    var finish := PartFinish(p.partId, s.receiver.reader.recvPackets);
    var s0 := Next(p, s, FinishRead);
    RunFromOne(p, s, FinishRead);
    assert finish in s0.control;
    Extend(p, s, [FinishRead], s0, HandleControl(finish));
    steps, s' := [FinishRead] + [HandleControl(finish)], Next(p, s0, HandleControl(finish));
  }

  lemma StreamedAllIsComplete(p: Params, s: State)
    requires WellFormed(p) && Streamed(p, s, Count(p))
    ensures s.receiver.reader.rx == Rx(Ledger(Count(p), [], []), p.src)
  {
    var arrivals := EntryNumbers(1, Count(p));
    NoRepeatsStoresAll(arrivals);
    assert Elements(arrivals) == Range(1, Count(p) + 1) by {
      forall x | x in Range(1, Count(p) + 1) ensures x in Elements(arrivals) {
        assert arrivals[x - 1] == x;
      }
    }
    CompleteTransfer(p, arrivals);
  }

  // Every part can be stranded, without any loss: all its packets are read, and
  // the finish packet is handled, before the sender enters the loop. The receiver
  // has the data, and the sender never leaves the loop, whatever follows.
  lemma RaceStrandsSender(p: Params, later: seq<Step>) returns (steps: seq<Step>)
    requires WellFormed(p)
    ensures Stranded(After(p, steps)) && FinishWritten(After(p, steps))
    ensures After(p, steps).receiver.reader.rx == Rx(Ledger(Count(p), [], []), p.src)
    ensures !After(p, steps + later).sender.phase.Left?
  {
    var steps0, s0 := StreamAll(p, Count(p));
    StreamedAllIsComplete(p, s0);
    var steps1, s1 := FinishEarly(p, s0);
    Join(p, Init(p), steps0, s0, steps1, s1);
    steps := steps0 + steps1;
    RunFromConcat(p, Init(p), steps, later);
    StrandedForever(p, s1, later);
  }

  // ------------------------------------------------------- the lost finish

  // The sender writes, or passes through the loop with its state set.
  predicate Bound(s: State)
  {
    || s.sender.phase.Writing? || s.sender.phase.Crashed?
    || ((s.sender.phase.AtLoopTest? || s.sender.phase.InRound?) && s.sender.retransferring)
  }

  predicate HandlesFinish(step: Step)
  {
    step.HandleControl? && step.packet.partFinished
  }

  lemma BoundStep(p: Params, s: State, step: Step)
    requires WellFormed(p) && Bound(s) && !HandlesFinish(step)
    ensures Bound(Next(p, s, step))
  {
  }

  // Nothing but a finish packet ends the loop.
  lemma {:induction false} BoundWithoutFinish(p: Params, s: State, steps: seq<Step>)
    requires WellFormed(p) && Bound(s) && forall k :: 0 <= k < |steps| ==> !HandlesFinish(steps[k])
    ensures Bound(RunFrom(p, s, steps))
  {
    if |steps| > 0 {
      BoundWithoutFinish(p, s, steps[..|steps| - 1]);
      BoundStep(p, RunFrom(p, s, steps[..|steps| - 1]), steps[|steps| - 1]);
    }
  }

  // What the receiver still writes once it has written the finish packet: no
  // second one, and nothing at all once its ticks have stopped.
  lemma NoSecondFinish(p: Params, s: State, step: Step)
    requires WellFormed(p) && FinishWritten(s)
    ensures var s' := Next(p, s, step);
            && FinishWritten(s')
            && (s.receiver.phase == Stopped ==> s'.receiver.phase == Stopped && s'.control == s.control)
            && forall a :: a in s'.control && a.partFinished ==> a in s.control
  {
  }

  lemma {:induction false} FinishIsWrittenOnce(p: Params, s: State, steps: seq<Step>)
    requires WellFormed(p) && FinishWritten(s)
    ensures var s' := RunFrom(p, s, steps);
            && FinishWritten(s')
            && (s.receiver.phase == Stopped ==> s'.receiver.phase == Stopped && s'.control == s.control)
            && forall a :: a in s'.control && a.partFinished ==> a in s.control
  {
    if |steps| > 0 {
      FinishIsWrittenOnce(p, s, steps[..|steps| - 1]);
      NoSecondFinish(p, RunFrom(p, s, steps[..|steps| - 1]), steps[|steps| - 1]);
    }
  }

  // The receiver writes one finish packet, and soon nothing more. If that packet
  // is never handled the sender stays in the loop for ever.
  lemma LostFinishBindsSender(p: Params, past: seq<Step>, later: seq<Step>)
    requires WellFormed(p) && FinishWritten(After(p, past)) && Bound(After(p, past))
    requires forall k :: 0 <= k < |later| ==> !HandlesFinish(later[k])
    ensures var s, s' := After(p, past), After(p, past + later);
            && !s'.sender.phase.Left?
            && (forall a :: a in s'.control && a.partFinished ==> a in s.control)
            && (s.receiver.phase == Stopped ==> s'.control == s.control)
  {
    RunFromConcat(p, Init(p), past, later);
    BoundWithoutFinish(p, After(p, past), later);
    FinishIsWrittenOnce(p, After(p, past), later);
  }
}
