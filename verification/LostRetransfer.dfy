// A repeat that the network has no part in: after one lost retransfer the
// receiver asks for a number that came, and its second arrival loses another
// (dataplane/partcontext.go:151-156, controlplane/controlplane.go:414-424).
module LostRetransfer {
  import opened Utils
  import opened Codec
  import opened GapLedger
  import opened Reassembly
  import opened Messages
  import opened Batching
  import opened Merging
  import opened Protocol
  import opened Completion

  // The step puts the datagram on the network.
  predicate Writes(p: Params, s: State, step: Step, datagram: seq<byte>)
    requires WellFormed(p)
  {
    match step
    case SendOriginal =>
      && s.sender.phase.Writing? && s.sender.phase.i < Count(p)
      && datagram == PartPacketBytes(p.partId, p.pl, p.src, s.sender.phase.i + 1)
    case SendAgain =>
      && s.sender.phase.InRound?
      && var InRound(snap, i, j) := s.sender.phase;
      && var Wanted(nums, offs) := s.sender.wanted;
      && i < snap && i < |nums| && i < |offs| && nums[i] != 0 && j < offs[i] && 1 <= nums[i] + j <= Count(p)
      && datagram == PartPacketBytes(p.partId, p.pl, p.src, nums[i] + j)
    case _ => false
  }

  // The step puts the control packet on the network.
  predicate WritesControl(p: Params, s: State, step: Step, a: AckPacket)
    requires WellFormed(p)
  {
    var r := s.receiver;
    match step
    case RequestTick(txId, id) =>
      && r.phase != Stopped && r.phase != Dead && Parallel(r.reader.rx.ledger)
      && a in Tick(r.reader.rx.ledger, TickInfo(p.partId, r.reader.recvPackets, txId, id))
    case FinishRead =>
      && r.phase == Reading && |r.arrivals| + r.foreign >= Count(p)
      && a == PartFinish(p.partId, r.reader.recvPackets)
    case _ => false
  }

  // The step before, taken in s, wrote what this one takes from the network.
  predicate WasJustWritten(p: Params, s: State, before: Step, step: Step)
    requires WellFormed(p)
  {
    match step
    case Read(datagram) => Writes(p, s, before, datagram)
    case HandleControl(a) => WritesControl(p, s, before, a)
    case _ => true
  }

  predicate TakesInput(step: Step)
  {
    step.Read? || step.HandleControl?
  }

  // A network that only loses, in both directions: what is read or handled was
  // written by the step before, so nothing is repeated, delayed or reordered.
  predicate OnlyLoses(p: Params, s: State, steps: seq<Step>)
    requires WellFormed(p)
  {
    |steps| == 0 || (OnlyLoses(p, s, steps[..|steps| - 1]) && LastInputWasWritten(p, s, steps))
  }

  predicate LastInputWasWritten(p: Params, s: State, steps: seq<Step>)
    requires WellFormed(p) && |steps| > 0
  {
    var n := |steps| - 1;
    TakesInput(steps[n]) ==> n >= 1 && WasJustWritten(p, RunFrom(p, s, steps[..n - 1]), steps[n - 1], steps[n])
  }

  lemma LastInputConcat(p: Params, s: State, a: seq<Step>, b: seq<Step>)
    requires WellFormed(p) && |b| > 0 && LastInputWasWritten(p, RunFrom(p, s, a), b)
    ensures LastInputWasWritten(p, s, a + b)
  {
    var n := |b| - 1;
    if TakesInput(b[n]) {
      assert (a + b)[..|a + b| - 2] == a + b[..n - 1];
      RunFromConcat(p, s, a, b[..n - 1]);
    }
  }

  lemma {:induction false} OnlyLosesConcat(p: Params, s: State, a: seq<Step>, b: seq<Step>)
    requires WellFormed(p) && OnlyLoses(p, s, a) && OnlyLoses(p, RunFrom(p, s, a), b)
    ensures OnlyLoses(p, s, a + b)
  {
    if |b| == 0 {
      assert a + b == a;
    } else {
      assert (a + b)[..|a + b| - 1] == a + b[..|b| - 1];
      OnlyLosesConcat(p, s, a, b[..|b| - 1]);
      LastInputConcat(p, s, a, b);
    }
  }

  // One stretch of a run after another.
  lemma Then(p: Params, s: State, a: seq<Step>, s0: State, b: seq<Step>, s1: State) returns (steps: seq<Step>)
    requires WellFormed(p) && s0 == RunFrom(p, s, a) && s1 == RunFrom(p, s0, b)
    requires OnlyLoses(p, s, a) && OnlyLoses(p, s0, b)
    ensures s1 == RunFrom(p, s, steps) && OnlyLoses(p, s, steps)
  {
    steps := a + b;
    Join(p, s, a, s0, b, s1);
    OnlyLosesConcat(p, s, a, b);
  }

  // A single step that takes nothing from the network.
  lemma Quietly(p: Params, s: State, step: Step) returns (steps: seq<Step>)
    requires WellFormed(p) && !TakesInput(step)
    ensures steps == [step]
    ensures RunFrom(p, s, steps) == Next(p, s, step) && OnlyLoses(p, s, steps)
  {
    steps := [step];
    RunFromOne(p, s, step);
    assert steps[..|steps| - 1] == [];
    assert OnlyLoses(p, s, steps[..|steps| - 1]) && LastInputWasWritten(p, s, steps);
  }

  // A step that writes, and one that takes what it wrote.
  lemma WriteAndTake(p: Params, s: State, step: Step, sent: State, input: Step, s': State) returns (steps: seq<Step>)
    requires WellFormed(p) && !TakesInput(step) && TakesInput(input) && WasJustWritten(p, s, step, input)
    requires sent == Next(p, s, step) && s' == Next(p, sent, input)
    ensures s' == RunFrom(p, s, steps) && OnlyLoses(p, s, steps)
  {
    var steps0 := Quietly(p, s, step);
    steps := steps0 + [input];
    Extend(p, s, steps0, sent, input);
    assert steps0[..0] == [];
    assert RunFrom(p, s, steps0[..0]) == s;
    OnlyLosesSnoc(p, s, steps0, input);
  }

  lemma OnlyLosesSnoc(p: Params, s: State, steps: seq<Step>, input: Step)
    requires WellFormed(p) && OnlyLoses(p, s, steps) && |steps| > 0
    requires WasJustWritten(p, RunFrom(p, s, steps[..|steps| - 1]), steps[|steps| - 1], input)
    ensures OnlyLoses(p, s, steps + [input])
  {
    var all := steps + [input];
    assert all[..|all| - 1] == steps && all[..|all| - 2] == steps[..|steps| - 1];
  }

  lemma WriteAndRead(p: Params, s: State, step: Step, sent: State, datagram: seq<byte>, s': State)
    returns (steps: seq<Step>)
    requires WellFormed(p) && Writes(p, s, step, datagram)
    requires sent == Next(p, s, step) && s' == ReadStep(p, sent, datagram)
    ensures s' == RunFrom(p, s, steps) && OnlyLoses(p, s, steps)
  {
    steps := WriteAndTake(p, s, step, sent, Read(datagram), s');
  }

  // ------------------------------------------------------------ the receiver

  // The receiver reads, and has stored everything it read.
  ghost predicate Receiving(p: Params, s: State, arrivals: seq<int>)
    requires WellFormed(p)
  {
    && Inv(p, s)
    && s.receiver.phase == Reading && s.receiver.foreign == 0
    && s.receiver.arrivals == arrivals && AcceptedCount(arrivals) == |arrivals|
  }

  // Reading a packet that is not turned away, the step after it was written.
  lemma ReadIt(p: Params, s: State, arrivals: seq<int>, n: int, datagram: seq<byte>) returns (s': State)
    requires WellFormed(p) && Receiving(p, s, arrivals) && |arrivals| < Count(p)
    requires 1 <= n <= Count(p) && datagram == PartPacketBytes(p.partId, p.pl, p.src, n) && datagram in s.data
    requires !Rejects(GapLedger.Run(arrivals), n)
    ensures s' == ReadStep(p, s, datagram) && s'.sender == s.sender && Receiving(p, s', arrivals + [n])
  {
    ReadOwnStep(p, s, datagram, n);
    s' := StoreIt(p, s, arrivals, n);
  }

  lemma StoreIt(p: Params, s: State, arrivals: seq<int>, n: int) returns (s': State)
    requires WellFormed(p) && Receiving(p, s, arrivals) && |arrivals| < Count(p)
    requires 1 <= n <= Count(p) && !Rejects(GapLedger.Run(arrivals), n)
    ensures s' == s.(receiver := OwnRead(p, s.receiver, n)) && Receiving(p, s', arrivals + [n])
  {
    OwnReadKeepsInv(p, s, n);
    HistoryGrows(p, arrivals, n);
    s' := s.(receiver := OwnRead(p, s.receiver, n));
  }

  // ------------------------------------------------------------- the sender

  ghost predicate Between(p: Params, s: State, arrivals: seq<int>)
    requires WellFormed(p)
  {
    Receiving(p, s, arrivals) && s.sender == Sender(AtLoopTest, true, Wanted([], []), true)
  }

  // In a pass over the single entry (v, off), before its packet j; at the end
  // of the pass with i = 1.
  ghost predicate InPass(p: Params, s: State, arrivals: seq<int>, v: int, off: int, i: nat, j: nat)
    requires WellFormed(p)
  {
    Receiving(p, s, arrivals) && s.sender == Sender(InRound(1, i, j), true, Wanted([v], [off]), true)
  }

  // A tick on a ledger of one entry, its request handled, and the start of a
  // pass over it.
  lemma Ask(p: Params, s: State, arrivals: seq<int>, highest: int, v: int, off: int)
    returns (steps: seq<Step>, s': State)
    requires WellFormed(p) && Between(p, s, arrivals)
    requires GapLedger.Run(arrivals) == Ledger(highest, [v], [off]) && highest >= 1
    ensures s' == RunFrom(p, s, steps) && OnlyLoses(p, s, steps) && InPass(p, s', arrivals, v, off, 0, 0)
  {
    var asked, a := TickOfOne(p, s, arrivals, highest, v, off);
    var handled := Handled(p, asked, arrivals, v, off, a);
    var steps1 := WriteAndTake(p, s, RequestTick(0, 0), asked, HandleControl(a), handled);
    var steps2 := Quietly(p, handled, BeginRound);
    BeginRoundKeepsInv(p, handled);
    s' := BeginRoundStep(handled);
    steps := Then(p, s, steps1, handled, steps2, s');
  }

  lemma OneEntryRequest(l: Ledger, info: TickInfo, v: int, off: int) returns (a: AckPacket)
    requires Parallel(l) && l.nums == [v] && l.offs == [off] && l.highest >= 1
    ensures |Tick(l, info)| == 1 && a == Tick(l, info)[0] && !a.partFinished
    ensures a.missingSequenceNumbers == [v] && a.missingSequenceNumberOffsets == [off]
  {
    ShortListBlocks(1);
    a := Tick(l, info)[0];
  }

  lemma TickOfOne(p: Params, s: State, arrivals: seq<int>, highest: int, v: int, off: int)
    returns (asked: State, a: AckPacket)
    requires WellFormed(p) && Between(p, s, arrivals)
    requires GapLedger.Run(arrivals) == Ledger(highest, [v], [off]) && highest >= 1
    ensures asked == Next(p, s, RequestTick(0, 0)) && Between(p, asked, arrivals) && a in asked.control
    ensures WritesControl(p, s, RequestTick(0, 0), a) && !a.partFinished
    ensures a.missingSequenceNumbers == [v] && a.missingSequenceNumberOffsets == [off]
  {
    LedgerIsRun(p, s.receiver);
    var l, info := GapLedger.Run(arrivals), TickInfo(p.partId, s.receiver.reader.recvPackets, 0, 0);
    a := OneEntryRequest(l, info, v, off);
    RequestTickKeepsInv(p, s, 0, 0);
    asked := RequestTickStep(p, s, 0, 0);
  }

  lemma Handled(p: Params, s: State, arrivals: seq<int>, v: int, off: int, a: AckPacket) returns (s': State)
    requires WellFormed(p) && Between(p, s, arrivals) && a in s.control && !a.partFinished
    requires a.missingSequenceNumbers == [v] && a.missingSequenceNumberOffsets == [off]
    ensures s' == Next(p, s, HandleControl(a)) && Receiving(p, s', arrivals)
    ensures s'.sender == Sender(AtLoopTest, true, Wanted([v], [off]), true)
  {
    HandleControlKeepsInv(p, s, a);
    assert TryMerge(Wanted([], []), [v], [off], 0) == Merged(Wanted([], []), false);
    assert TryMerge(Wanted([], []), [v], [off], 1) == Merged(Wanted([v], [off]), false);
    s' := HandleControlStep(s, a);
  }

  // The next packet of the pass is written.
  lemma Again(p: Params, s: State, arrivals: seq<int>, v: int, off: int, j: nat)
    returns (sent: State, datagram: seq<byte>)
    requires WellFormed(p) && InPass(p, s, arrivals, v, off, 0, j) && j < off
    ensures 1 <= v + j <= Count(p) && datagram == PartPacketBytes(p.partId, p.pl, p.src, v + j) && datagram in sent.data
    ensures sent == SendAgainStep(p, s) && InPass(p, sent, arrivals, v, off, 0, j + 1)
  {
    datagram := PartPacketBytes(p.partId, p.pl, p.src, v + j);
    SendAgainSends(p, s, v + j, datagram);
    SentKeepsInv(p, s, v + j, datagram);
    sent := SentAgain(s, datagram);
  }

  lemma AgainWrites(p: Params, s: State, arrivals: seq<int>, v: int, off: int, j: nat, datagram: seq<byte>)
    requires WellFormed(p) && InPass(p, s, arrivals, v, off, 0, j) && j < off
    requires 1 <= v + j <= Count(p) && datagram == PartPacketBytes(p.partId, p.pl, p.src, v + j)
    ensures Writes(p, s, SendAgain, datagram)
  {
  }

  lemma AgainTaken(p: Params, s: State, arrivals: seq<int>, v: int, off: int, j: nat, sent: State,
                   datagram: seq<byte>, s': State)
    returns (steps: seq<Step>)
    requires WellFormed(p) && InPass(p, s, arrivals, v, off, 0, j) && j < off && 1 <= v + j <= Count(p)
    requires datagram == PartPacketBytes(p.partId, p.pl, p.src, v + j)
    requires sent == SendAgainStep(p, s) && s' == ReadStep(p, sent, datagram)
    ensures s' == RunFrom(p, s, steps) && OnlyLoses(p, s, steps)
  {
    AgainWrites(p, s, arrivals, v, off, j, datagram);
    steps := WriteAndRead(p, s, SendAgain, sent, datagram, s');
  }

  lemma AgainLost(p: Params, s: State, arrivals: seq<int>, v: int, off: int, j: nat)
    returns (steps: seq<Step>, s': State)
    requires WellFormed(p) && InPass(p, s, arrivals, v, off, 0, j) && j < off
    ensures s' == RunFrom(p, s, steps) && OnlyLoses(p, s, steps) && InPass(p, s', arrivals, v, off, 0, j + 1)
  {
    var datagram;
    s', datagram := Again(p, s, arrivals, v, off, j);
    steps := Quietly(p, s, SendAgain);
  }

  lemma AgainRead(p: Params, s: State, arrivals: seq<int>, l: Ledger, v: int, off: int, j: nat, n: int, all: seq<int>)
    returns (steps: seq<Step>, s': State)
    requires WellFormed(p) && InPass(p, s, arrivals, v, off, 0, j) && j < off && |arrivals| < Count(p)
    requires n == v + j && GapLedger.Run(arrivals) == l && !Rejects(l, n) && all == arrivals + [n]
    ensures s' == RunFrom(p, s, steps) && OnlyLoses(p, s, steps) && InPass(p, s', all, v, off, 0, j + 1)
  {
    var sent, datagram := Again(p, s, arrivals, v, off, j);
    s' := ReadInPass(p, sent, arrivals, v, off, j + 1, n, datagram, all);
    steps := AgainTaken(p, s, arrivals, v, off, j, sent, datagram, s');
  }

  lemma ReadInPass(p: Params, s: State, arrivals: seq<int>, v: int, off: int, j: nat, n: int, datagram: seq<byte>,
                   all: seq<int>)
    returns (s': State)
    requires WellFormed(p) && InPass(p, s, arrivals, v, off, 0, j) && |arrivals| < Count(p) && all == arrivals + [n]
    requires 1 <= n <= Count(p) && datagram == PartPacketBytes(p.partId, p.pl, p.src, n) && datagram in s.data
    requires !Rejects(GapLedger.Run(arrivals), n)
    ensures s' == ReadStep(p, s, datagram) && InPass(p, s', all, v, off, 0, j)
  {
    s' := ReadIt(p, s, arrivals, n, datagram);
  }

  // The end of the entry and of the pass.
  lemma PassEnds(p: Params, s: State, arrivals: seq<int>, v: int, off: nat) returns (steps: seq<Step>, s': State)
    requires WellFormed(p) && InPass(p, s, arrivals, v, off, 0, off)
    ensures s' == RunFrom(p, s, steps) && OnlyLoses(p, s, steps) && Between(p, s', arrivals)
  {
    var s0 := PastEntry(p, s, arrivals, v, off);
    var steps0 := Quietly(p, s, SendAgain);
    s' := PastPass(p, s0, arrivals, v, off);
    var steps1 := Quietly(p, s0, EndRound);
    steps := Then(p, s, steps0, s0, steps1, s');
  }

  lemma PastEntry(p: Params, s: State, arrivals: seq<int>, v: int, off: nat) returns (s0: State)
    requires WellFormed(p) && InPass(p, s, arrivals, v, off, 0, off)
    ensures s0 == SendAgainStep(p, s) && InPass(p, s0, arrivals, v, off, 1, 0)
  {
    SendAgainKeepsInv(p, s);
    s0 := SendAgainStep(p, s);
  }

  lemma PastPass(p: Params, s: State, arrivals: seq<int>, v: int, off: nat) returns (s': State)
    requires WellFormed(p) && InPass(p, s, arrivals, v, off, 1, 0)
    ensures s' == EndRoundStep(s) && Between(p, s', arrivals)
  {
    EndRoundKeepsInv(p, s);
    s' := EndRoundStep(s);
  }

  // ---------------------------------------------------------------- the run

  // The numbers 3..n.
  function FromThree(n: nat): seq<int>
    requires n >= 2
  {
    EntryNumbers(3, n - 2)
  }

  lemma {:induction false} LedgerOfStream(n: nat)
    requires n >= 2
    ensures GapLedger.Run(FromThree(n)) == if n == 2 then FRESH else Ledger(n, [1], [2])
  {
    if n > 2 {
      LedgerOfStream(n - 1);
      assert FromThree(n)[..|FromThree(n)| - 1] == FromThree(n - 1);
    }
  }

  lemma LedgersOfRun(n: nat)
    requires n >= 3
    ensures var one := FromThree(n) + [1];
            && GapLedger.Run(FromThree(n)) == Ledger(n, [1], [2])
            && GapLedger.Run(one) == Ledger(n, [1], [1])
            && GapLedger.Run(one + [1]) == Ledger(n, [], [])
  {
    var one := FromThree(n) + [1];
    LedgerOfStream(n);
    OneComesBack(n);
    RunOneMore(FromThree(n), 1);
    RunOneMore(one, 1);
  }

  lemma RunOneMore(arrivals: seq<int>, s: int)
    ensures GapLedger.Run(arrivals + [s]) == Arrive(GapLedger.Run(arrivals), s)
  {
    assert (arrivals + [s])[..|arrivals|] == arrivals;
  }

  lemma OneComesBack(n: nat)
    requires n >= 3
    ensures Arrive(Ledger(n, [1], [2]), 1) == Ledger(n, [1], [1])
    ensures Arrive(Ledger(n, [1], [1]), 1) == Ledger(n, [], [])
  {
    assert FirstHit(1, [1], 0) == 0;
  }

  // The sender writes original i+1, before which the others were written.
  ghost predicate WritingNext(p: Params, s: State, arrivals: seq<int>, i: nat)
    requires WellFormed(p)
  {
    Receiving(p, s, arrivals) && s.sender == Sender(Writing(i), false, Wanted([], []), true)
  }

  lemma OriginalLost(p: Params, s: State, i: nat) returns (steps: seq<Step>, s': State)
    requires WellFormed(p) && WritingNext(p, s, [], i) && i < Count(p)
    ensures s' == RunFrom(p, s, steps) && OnlyLoses(p, s, steps) && WritingNext(p, s', [], i + 1)
  {
    SendOriginalKeepsInv(p, s);
    s' := SendOriginalStep(p, s);
    steps := Quietly(p, s, SendOriginal);
  }

  lemma OriginalRead(p: Params, s: State, n: nat) returns (steps: seq<Step>, s': State)
    requires WellFormed(p) && 2 <= n < Count(p) && WritingNext(p, s, FromThree(n), n)
    ensures s' == RunFrom(p, s, steps) && OnlyLoses(p, s, steps) && WritingNext(p, s', FromThree(n + 1), n + 1)
  {
    var sent, datagram := OriginalWritten(p, s, FromThree(n), n);
    LedgerOfStream(n);
    assert FromThree(n) + [n + 1] == FromThree(n + 1);
    s' := ReadIt(p, sent, FromThree(n), n + 1, datagram);
    steps := WriteAndRead(p, s, SendOriginal, sent, datagram, s');
  }

  lemma OriginalWritten(p: Params, s: State, arrivals: seq<int>, i: nat) returns (sent: State, datagram: seq<byte>)
    requires WellFormed(p) && i < Count(p) && WritingNext(p, s, arrivals, i)
    ensures sent == SendOriginalStep(p, s) && WritingNext(p, sent, arrivals, i + 1)
    ensures datagram == PartPacketBytes(p.partId, p.pl, p.src, i + 1) && datagram in sent.data
    ensures Writes(p, s, SendOriginal, datagram)
  {
    SendOriginalKeepsInv(p, s);
    sent, datagram := SendOriginalStep(p, s), PartPacketBytes(p.partId, p.pl, p.src, i + 1);
  }

  // Packets 1 and 2 are lost, 3..n are read.
  lemma {:induction false} Originals(p: Params, n: nat) returns (steps: seq<Step>, s: State)
    requires WellFormed(p) && 2 <= n <= Count(p)
    ensures s == After(p, steps) && OnlyLoses(p, Init(p), steps) && WritingNext(p, s, FromThree(n), n)
  {
    var s0 := Init(p);
    if n == 2 {
      InitInv(p);
      var steps1, s1 := OriginalLost(p, s0, 0);
      var steps2;
      steps2, s := OriginalLost(p, s1, 1);
      steps := Then(p, s0, steps1, s1, steps2, s);
    } else {
      var steps1, s1 := Originals(p, n - 1);
      var steps2;
      steps2, s := OriginalRead(p, s1, n - 1);
      steps := Then(p, s0, steps1, s1, steps2, s);
    }
  }

  lemma FirstPass(p: Params) returns (steps: seq<Step>, s: State)
    requires WellFormed(p) && Count(p) >= 3
    ensures s == After(p, steps) && OnlyLoses(p, Init(p), steps) && Between(p, s, FromThree(Count(p)))
  {
    var steps0, s0 := Originals(p, Count(p));
    var steps1 := Quietly(p, s0, EnterLoop);
    EnterLoopKeepsInv(p, s0);
    s := EnterLoopStep(p, s0);
    steps := Then(p, Init(p), steps0, s0, steps1, s);
  }

  // A request for the single entry of the ledger, and its first packet sent again
  // and read.
  lemma AskAndRead(p: Params, s: State, arrivals: seq<int>, highest: int, v: int, off: nat, all: seq<int>)
    returns (steps: seq<Step>, s': State)
    requires WellFormed(p) && Between(p, s, arrivals) && all == arrivals + [v] && |arrivals| < Count(p)
    requires GapLedger.Run(arrivals) == Ledger(highest, [v], [off]) && highest >= 1 && off >= 1
    ensures s' == RunFrom(p, s, steps) && OnlyLoses(p, s, steps) && InPass(p, s', all, v, off, 0, 1)
  {
    var steps1, s1 := Ask(p, s, arrivals, highest, v, off);
    var steps2;
    steps2, s' := FirstOfPass(p, s1, arrivals, highest, v, off, all);
    steps := Then(p, s, steps1, s1, steps2, s');
  }

  lemma FirstOfPass(p: Params, s: State, arrivals: seq<int>, highest: int, v: int, off: nat, all: seq<int>)
    returns (steps: seq<Step>, s': State)
    requires WellFormed(p) && InPass(p, s, arrivals, v, off, 0, 0) && |arrivals| < Count(p) && all == arrivals + [v]
    requires GapLedger.Run(arrivals) == Ledger(highest, [v], [off]) && off >= 1
    ensures s' == RunFrom(p, s, steps) && OnlyLoses(p, s, steps) && InPass(p, s', all, v, off, 0, 1)
  {
    EntryAccepts(highest, v, off);
    steps, s' := AgainRead(p, s, arrivals, Ledger(highest, [v], [off]), v, off, 0, v, all);
  }

  lemma EntryAccepts(highest: int, v: int, off: int)
    ensures !Rejects(Ledger(highest, [v], [off]), v)
  {
  }

  // The first round loses packet 2 again.
  lemma FirstRound(p: Params, s: State, arrivals: seq<int>, all: seq<int>) returns (steps: seq<Step>, s': State)
    requires WellFormed(p) && Between(p, s, arrivals) && all == arrivals + [1] && |arrivals| < Count(p)
    requires GapLedger.Run(arrivals) == Ledger(Count(p), [1], [2]) && Count(p) >= 3
    ensures s' == RunFrom(p, s, steps) && OnlyLoses(p, s, steps) && Between(p, s', all)
  {
    var asked, s2 := AskAndRead(p, s, arrivals, Count(p), 1, 2, all);
    var steps3, s3 := AgainLost(p, s2, all, 1, 2, 1);
    var sent := Then(p, s, asked, s2, steps3, s3);
    var steps4;
    steps4, s' := PassEnds(p, s3, all, 1, 2);
    steps := Then(p, s, sent, s3, steps4, s');
  }

  // The second round asks for packet 1, which came, and not for packet 2.
  lemma SecondRound(p: Params, s: State, arrivals: seq<int>, all: seq<int>) returns (steps: seq<Step>, s': State)
    requires WellFormed(p) && Between(p, s, arrivals) && all == arrivals + [1] && |arrivals| < Count(p)
    requires GapLedger.Run(arrivals) == Ledger(Count(p), [1], [1]) && Count(p) >= 3
    ensures s' == RunFrom(p, s, steps) && OnlyLoses(p, s, steps) && Between(p, s', all)
  {
    var asked, s2 := AskAndRead(p, s, arrivals, Count(p), 1, 1, all);
    var steps3;
    steps3, s' := PassEnds(p, s2, all, 1, 1);
    steps := Then(p, s, asked, s2, steps3, s');
  }

  lemma TwoRounds(p: Params, all: seq<int>) returns (steps: seq<Step>, s: State)
    requires WellFormed(p) && Count(p) >= 3 && all == FromThree(Count(p)) + [1] + [1]
    ensures s == After(p, steps) && OnlyLoses(p, Init(p), steps) && Between(p, s, all)
  {
    LedgersOfRun(Count(p));
    var one := FromThree(Count(p)) + [1];
    var steps1, s1 := FirstPass(p);
    var steps2, s2 := FirstRound(p, s1, FromThree(Count(p)), one);
    var once := Then(p, Init(p), steps1, s1, steps2, s2);
    var steps3;
    steps3, s := SecondRound(p, s2, one, all);
    steps := Then(p, Init(p), once, s2, steps3, s);
  }

  lemma PacketTwoIsMissing(p: Params, s: State, all: seq<int>)
    requires WellFormed(p) && Count(p) >= 3 && all == FromThree(Count(p)) + [1] + [1] && Receiving(p, s, all)
    ensures s.receiver.reader.rx.ledger == Ledger(Count(p), [], []) && 2 !in StoredIn(all)
  {
    LedgersOfRun(Count(p));
    LedgerIsRun(p, s.receiver);
    StoredArrived(all);
    TwoIsAbsent(Count(p), all);
  }

  lemma TwoIsAbsent(n: nat, all: seq<int>)
    requires n >= 2 && all == FromThree(n) + [1] + [1]
    ensures 2 !in Elements(all)
  {
    forall k | 0 <= k < |all| ensures all[k] != 2 {
      assert k < n - 2 ==> all[k] == FromThree(n)[k];
    }
  }

  // ReadPart returns, and its finish packet ends the loop.
  lemma Finish(p: Params, s: State, arrivals: seq<int>) returns (steps: seq<Step>, s': State)
    requires WellFormed(p) && Between(p, s, arrivals) && |arrivals| >= Count(p)
    ensures s' == RunFrom(p, s, steps) && OnlyLoses(p, s, steps)
    ensures s'.sender.phase.Left? && s'.receiver == s.receiver.(phase := FinishSent)
  {
    var finish := PartFinish(p.partId, s.receiver.reader.recvPackets);
    var written := FinishReadStep(p, s);
    assert finish in written.control;
    var handled := HandleControlStep(written, finish);
    var steps1 := WriteAndTake(p, s, FinishRead, written, HandleControl(finish), handled);
    var steps2 := Quietly(p, handled, LeaveLoop);
    s' := LeaveLoopStep(handled);
    steps := Then(p, s, steps1, handled, steps2, s');
  }

  // For every part of three packets or more, over a network that only loses: the
  // transfer ends, the ledger is empty, and packet 2 was never stored.
  lemma LostRetransferLosesPacket(p: Params) returns (steps: seq<Step>)
    requires WellFormed(p) && Count(p) >= 3
    ensures OnlyLoses(p, Init(p), steps)
    ensures var s := After(p, steps);
            && s.sender.phase.Left? && s.receiver.foreign == 0
            && s.receiver.arrivals == FromThree(Count(p)) + [1] + [1]
            && s.receiver.reader.rx.ledger == Ledger(Count(p), [], []) && 2 !in StoredIn(s.receiver.arrivals)
  {
    var all := FromThree(Count(p)) + [1] + [1];
    var steps0, s0 := TwoRounds(p, all);
    PacketTwoIsMissing(p, s0, all);
    var steps1, s1 := Finish(p, s0, all);
    steps := Then(p, Init(p), steps0, s0, steps1, s1);
  }
}
