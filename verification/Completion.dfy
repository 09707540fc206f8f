// The lossless rounds of Progress as steps of the two parties: from the end of
// an in-order first pass to the receiver holding the sender's data.
module Completion {
  import opened Utils
  import opened Codec
  import opened GapLedger
  import opened Reassembly
  import opened Messages
  import opened Batching
  import opened Merging
  import opened Protocol
  import Progress

  lemma {:induction false} RunFromConcat(p: Params, s: State, a: seq<Step>, b: seq<Step>)
    requires WellFormed(p)
    ensures RunFrom(p, s, a + b) == RunFrom(p, RunFrom(p, s, a), b)
  {
    if |b| == 0 {
      assert a + b == a;
    } else {
      var n := |b| - 1;
      assert (a + b)[..|a + b| - 1] == a + b[..n];
      RunFromConcat(p, s, a, b[..n]);
    }
  }

  lemma RunFromOne(p: Params, s: State, step: Step)
    requires WellFormed(p)
    ensures RunFrom(p, s, [step]) == Next(p, s, step)
  {
    assert [step][..0] == [];
    assert RunFrom(p, s, [step][..0]) == s;
  }

  // Retransfer rounds begun in a run.
  function Rounds(steps: seq<Step>): nat
  {
    if |steps| == 0 then 0
    else Rounds(steps[..|steps| - 1]) + if steps[|steps| - 1].BeginRound? then 1 else 0
  }

  lemma {:induction false} RoundsConcat(a: seq<Step>, b: seq<Step>)
    ensures Rounds(a + b) == Rounds(a) + Rounds(b)
  {
    if |b| == 0 {
      assert a + b == a;
    } else {
      var n := |b| - 1;
      assert (a + b)[..|a + b| - 1] == a + b[..n];
      RoundsConcat(a, b[..n]);
    }
  }

  lemma RoundsOne(step: Step)
    ensures Rounds([step]) == if step.BeginRound? then 1 else 0
  {
    assert [step][..0] == [];
  }

  // One more step after a run that leads to s'.
  lemma Extend(p: Params, s: State, steps: seq<Step>, s': State, step: Step)
    requires WellFormed(p) && RunFrom(p, s, steps) == s'
    ensures RunFrom(p, s, steps + [step]) == Next(p, s', step)
    ensures Rounds(steps + [step]) == Rounds(steps) + if step.BeginRound? then 1 else 0
  {
    RunFromConcat(p, s, steps, [step]);
    RunFromOne(p, s', step);
    RoundsConcat(steps, [step]);
    RoundsOne(step);
  }

  lemma ExtendTwice(p: Params, s: State, steps: seq<Step>, s0: State, step: Step, s1: State, datagram: seq<byte>,
                    s2: State)
    requires WellFormed(p) && s0 == RunFrom(p, s, steps) && !step.BeginRound?
    requires s1 == Next(p, s0, step) && s2 == ReadStep(p, s1, datagram)
    ensures RunFrom(p, s, steps + [step] + [Read(datagram)]) == s2
    ensures Rounds(steps + [step] + [Read(datagram)]) == Rounds(steps)
  {
    Extend(p, s, steps, s0, step);
    Extend(p, s, steps + [step], s1, Read(datagram));
  }

  // ---------------------------------------------------------- one round

  // The receiver is reading, has seen no foreign datagram and no number twice.
  ghost predicate ReadingExactly(p: Params, s: State, arrivals: seq<int>)
    requires WellFormed(p)
  {
    && Inv(p, s)
    && s.receiver.phase == Reading && s.receiver.foreign == 0
    && s.receiver.arrivals == arrivals
    && NoRepeats(arrivals)
  }

  // The sender is in a pass over w, before packet j of entry i.
  ghost predicate Resending(p: Params, s: State, w: Wanted, arrivals: seq<int>, i: nat, j: nat)
    requires WellFormed(p)
  {
    && ReadingExactly(p, s, arrivals)
    && s.sender == Sender(InRound(|w.nums|, i, j), true, w, true)
  }

  // The next packet of the pass is sent.
  lemma SendNext(p: Params, s: State, w: Wanted, arrivals: seq<int>, i: nat, j: nat)
    returns (sent: State, datagram: seq<byte>)
    requires WellFormed(p) && Resending(p, s, w, arrivals, i, j)
    requires i < |w.nums| == |w.offs| && j < w.offs[i]
    ensures 1 <= w.nums[i] + j <= Count(p)
    ensures datagram == PartPacketBytes(p.partId, p.pl, p.src, w.nums[i] + j) && datagram in sent.data
    ensures sent == SendAgainStep(p, s) && Resending(p, sent, w, arrivals, i, j + 1)
  {
    datagram := PartPacketBytes(p.partId, p.pl, p.src, w.nums[i] + j);
    SendAgainSends(p, s, w.nums[i] + j, datagram);
    SentKeepsInv(p, s, w.nums[i] + j, datagram);
    sent := SentAgain(s, datagram);
  }

  // Reading a packet whose number has not come.
  lemma ReadFresh(p: Params, s: State, arrivals: seq<int>, datagram: seq<byte>, n: int) returns (s': State)
    requires WellFormed(p) && ReadingExactly(p, s, arrivals)
    requires 1 <= n <= Count(p) && datagram == PartPacketBytes(p.partId, p.pl, p.src, n) && datagram in s.data
    requires NoRepeats(arrivals + [n])
    ensures s' == ReadStep(p, s, datagram) && s'.sender == s.sender
    ensures ReadingExactly(p, s', arrivals + [n])
  {
    s' := FreshIsStored(p, s, arrivals, n);
    RoomForOneMore(p, arrivals, n);
    ReadOwnStep(p, s, datagram, n);
  }

  lemma FreshIsStored(p: Params, s: State, arrivals: seq<int>, n: int) returns (s': State)
    requires WellFormed(p) && ReadingExactly(p, s, arrivals) && 1 <= n <= Count(p) && NoRepeats(arrivals + [n])
    ensures s' == s.(receiver := OwnRead(p, s.receiver, n))
    ensures ReadingExactly(p, s', arrivals + [n])
  {
    RoomForOneMore(p, arrivals, n);
    OwnReadKeepsInv(p, s, n);
    s' := s.(receiver := OwnRead(p, s.receiver, n));
  }

  // Distinct numbers of the part leave a read for each other one, and none is
  // turned away.
  lemma RoomForOneMore(p: Params, arrivals: seq<int>, n: int)
    requires WellFormed(p) && FromSender(p.pl, p.src, arrivals) && 1 <= n <= Count(p)
    requires NoRepeats(arrivals + [n])
    ensures |arrivals| < Count(p)
    ensures !Rejects(GapLedger.Run(arrivals), n) && AcceptedCount(arrivals) == |arrivals|
  {
    var all := arrivals + [n];
    assert all[..|arrivals|] == arrivals;
    assert FromSender(p.pl, p.src, all);
    DistinctFitInPart(p, all);
    NoneTurnedAway(all, |arrivals|);
    assert NoRepeats(arrivals);
    AllAccepted(arrivals);
  }

  lemma DistinctFitInPart(p: Params, arrivals: seq<int>)
    requires WellFormed(p) && FromSender(p.pl, p.src, arrivals) && NoRepeats(arrivals)
    ensures |arrivals| <= Count(p)
  {
    Pigeonhole(arrivals);
    RangeSize(1, Count(p) + 1);
    forall x | x in Elements(arrivals) ensures x in Range(1, Count(p) + 1) {
    }
    SubsetIsSmaller(Elements(arrivals), Range(1, Count(p) + 1));
  }

  lemma SubsetIsSmaller(a: set<int>, b: set<int>)
    requires a <= b
    ensures |a| <= |b|
  {
    assert b == a + (b - a);
  }

  lemma NoRepeatsPrefix(a: seq<int>, b: seq<int>)
    requires NoRepeats(a + b)
    ensures NoRepeats(a)
  {
    forall i, j | 0 <= i < j < |a| ensures a[i] != a[j] {
      assert (a + b)[i] == a[i] && (a + b)[j] == a[j];
    }
  }

  // The next packet of the pass is sent and read.
  lemma SendAndRead(p: Params, s: State, steps0: seq<Step>, s0: State, w: Wanted, before: seq<int>,
                    i: nat, j: nat, all: seq<int>)
    returns (steps: seq<Step>, s': State)
    requires WellFormed(p) && s0 == RunFrom(p, s, steps0) && Resending(p, s0, w, before, i, j)
    requires i < |w.nums| == |w.offs| && j < w.offs[i] && all == before + [w.nums[i] + j] && NoRepeats(all)
    ensures s' == RunFrom(p, s, steps) && Rounds(steps) == Rounds(steps0)
    ensures Resending(p, s', w, all, i, j + 1)
  {
    var sent, datagram := SendNext(p, s0, w, before, i, j);
    s' := ReadFresh(p, sent, before, datagram, w.nums[i] + j);
    ExtendTwice(p, s, steps0, s0, SendAgain, sent, datagram, s');
    steps := steps0 + [SendAgain] + [Read(datagram)];
  }

  // The numbers of an entry before its j-th.
  lemma BeforeLastNumber(arrivals: seq<int>, v: int, j: nat, all: seq<int>) returns (before: seq<int>)
    requires j > 0 && all == arrivals + EntryNumbers(v, j) && NoRepeats(all)
    ensures before == arrivals + EntryNumbers(v, j - 1) && NoRepeats(before) && all == before + [v + (j - 1)]
  {
    before := arrivals + EntryNumbers(v, j - 1);
    assert all == before + [v + (j - 1)];
    NoRepeatsPrefix(before, [v + (j - 1)]);
  }

  lemma NothingSentYet(p: Params, s: State, w: Wanted, arrivals: seq<int>, i: nat, numbers: seq<int>, all: seq<int>)
    requires WellFormed(p) && Resending(p, s, w, arrivals, i, 0) && |numbers| == 0 && all == arrivals + numbers
    ensures Resending(p, s, w, all, i, 0) && RunFrom(p, s, []) == s && Rounds([]) == 0
  {
    assert all == arrivals;
  }

  // The first j packets of entry i.
  lemma {:induction false} ResendEntry(p: Params, s: State, w: Wanted, arrivals: seq<int>, i: nat, j: nat,
                                       all: seq<int>)
    returns (steps: seq<Step>, s': State)
    requires WellFormed(p) && Resending(p, s, w, arrivals, i, 0)
    requires i < |w.nums| == |w.offs| && j <= w.offs[i]
    requires all == arrivals + EntryNumbers(w.nums[i], j) && NoRepeats(all)
    ensures s' == RunFrom(p, s, steps) && Rounds(steps) == 0
    ensures Resending(p, s', w, all, i, j)
    decreases j
  {
    if j == 0 {
      NothingSentYet(p, s, w, arrivals, i, EntryNumbers(w.nums[i], 0), all);
      steps, s' := [], s;
    } else {
      var before := BeforeLastNumber(arrivals, w.nums[i], j, all);
      var steps0, s0 := ResendEntry(p, s, w, arrivals, i, j - 1, before);
      steps, s' := SendAndRead(p, s, steps0, s0, w, before, i, j - 1, all);
    }
  }

  // Past the last packet of an entry the pass goes on to the next one.
  lemma NextEntry(p: Params, s: State, w: Wanted, arrivals: seq<int>, i: nat)
    requires WellFormed(p) && i < |w.nums| == |w.offs| && w.offs[i] >= 0
    requires Resending(p, s, w, arrivals, i, w.offs[i])
    ensures Resending(p, Next(p, s, SendAgain), w, arrivals, i + 1, 0)
  {
    NextKeepsInv(p, s, SendAgain);
  }

  lemma ResendWholeEntry(p: Params, s: State, w: Wanted, arrivals: seq<int>, i: nat, all: seq<int>)
    returns (steps: seq<Step>, s': State)
    requires WellFormed(p) && Resending(p, s, w, arrivals, i, 0)
    requires i < |w.nums| == |w.offs| && w.offs[i] >= 0
    requires all == arrivals + EntryNumbers(w.nums[i], w.offs[i]) && NoRepeats(all)
    ensures s' == RunFrom(p, s, steps) && Rounds(steps) == 0
    ensures Resending(p, s', w, all, i + 1, 0)
  {
    var steps0, s0 := ResendEntry(p, s, w, arrivals, i, w.offs[i], all);
    NextEntry(p, s0, w, all, i);
    Extend(p, s, steps0, s0, SendAgain);
    steps, s' := steps0 + [SendAgain], Next(p, s0, SendAgain);
  }

  lemma Join(p: Params, s: State, a: seq<Step>, s0: State, b: seq<Step>, s1: State)
    requires WellFormed(p) && s0 == RunFrom(p, s, a) && s1 == RunFrom(p, s0, b)
    ensures s1 == RunFrom(p, s, a + b) && Rounds(a + b) == Rounds(a) + Rounds(b)
  {
    RunFromConcat(p, s, a, b);
    RoundsConcat(a, b);
  }

  // The first n entries of the pass.
  lemma {:induction false} ResendEntries(p: Params, s: State, w: Wanted, arrivals: seq<int>, n: nat, all: seq<int>)
    returns (steps: seq<Step>, s': State)
    requires WellFormed(p) && Resending(p, s, w, arrivals, 0, 0)
    requires NamesPackets(w.nums, w.offs, Count(p)) && n <= |w.nums|
    requires all == arrivals + RetransferNumbers(w.nums, w.offs, Count(p), n) && NoRepeats(all)
    ensures s' == RunFrom(p, s, steps) && Rounds(steps) == 0
    ensures Resending(p, s', w, all, n, 0)
    decreases n, 1
  {
    if n == 0 {
      NothingSentYet(p, s, w, arrivals, 0, RetransferNumbers(w.nums, w.offs, Count(p), 0), all);
      steps, s' := [], s;
    } else {
      steps, s' := ResendUpTo(p, s, w, arrivals, n, all);
    }
  }

  // The first n entries, the last of them behind the others.
  lemma {:induction false} ResendUpTo(p: Params, s: State, w: Wanted, arrivals: seq<int>, n: nat, all: seq<int>)
    returns (steps: seq<Step>, s': State)
    requires WellFormed(p) && Resending(p, s, w, arrivals, 0, 0)
    requires NamesPackets(w.nums, w.offs, Count(p)) && 0 < n <= |w.nums|
    requires all == arrivals + RetransferNumbers(w.nums, w.offs, Count(p), n) && NoRepeats(all)
    ensures s' == RunFrom(p, s, steps) && Rounds(steps) == 0
    ensures Resending(p, s', w, all, n, 0)
    decreases n, 0
  {
    var before, v, off := BeforeLastEntry(w, arrivals, Count(p), n, all);
    var steps0, s0 := ResendEntries(p, s, w, arrivals, n - 1, before);
    var steps1, s1 := ResendWholeEntry(p, s0, w, before, n - 1, all);
    Join(p, s, steps0, s0, steps1, s1);
    steps, s' := steps0 + steps1, s1;
  }

  lemma BeforeLastEntry(w: Wanted, arrivals: seq<int>, count: int, n: nat, all: seq<int>)
    returns (before: seq<int>, v: int, off: nat)
    requires NamesPackets(w.nums, w.offs, count) && 0 < n <= |w.nums|
    requires all == arrivals + RetransferNumbers(w.nums, w.offs, count, n) && NoRepeats(all)
    ensures before == arrivals + RetransferNumbers(w.nums, w.offs, count, n - 1) && NoRepeats(before)
    ensures v == w.nums[n - 1] && off == w.offs[n - 1] && all == before + EntryNumbers(v, off)
  {
    v, off := w.nums[n - 1], w.offs[n - 1];
    before := arrivals + RetransferNumbers(w.nums, w.offs, count, n - 1);
    assert all == before + EntryNumbers(w.nums[n - 1], w.offs[n - 1]);
    NoRepeatsPrefix(before, EntryNumbers(w.nums[n - 1], w.offs[n - 1]));
  }

  // ------------------------------------------------------------ a request

  // The n-th packet of a tick is handled.
  lemma HandleOne(p: Params, s: State, w: Wanted, l: Ledger, info: TickInfo, n: nat) returns (a: AckPacket, s': State)
    requires WellFormed(p) && Parallel(l) && 0 < n <= NumBlocks(|l.nums|) && s.sender.handling
    requires RequestPacket(l, info, n - 1) in s.control && s.sender.wanted == Progress.MergeTick(w, l, info, n - 1)
    ensures s' == Next(p, s, HandleControl(a))
    ensures s' == s.(sender := s.sender.(wanted := Progress.MergeTick(w, l, info, n)))
  {
    a := RequestPacket(l, info, n - 1);
    PairedListsMerge(s.sender.wanted, a.missingSequenceNumbers, a.missingSequenceNumberOffsets,
                     |a.missingSequenceNumbers|);
    s' := HandleControlStep(s, a);
  }

  // The sender handles the first n packets of a tick that are in flight.
  lemma {:induction false} HandleTick(p: Params, s: State, l: Ledger, info: TickInfo, n: nat)
    returns (steps: seq<Step>, s': State)
    requires WellFormed(p) && Parallel(l) && n <= NumBlocks(|l.nums|) && s.sender.handling
    requires forall k :: 0 <= k < n ==> RequestPacket(l, info, k) in s.control
    ensures s' == RunFrom(p, s, steps) && Rounds(steps) == 0
    ensures s' == s.(sender := s.sender.(wanted := Progress.MergeTick(s.sender.wanted, l, info, n)))
    decreases n
  {
    if n == 0 {
      steps, s' := [], s;
    } else {
      var steps0, s0 := HandleTick(p, s, l, info, n - 1);
      var a;
      a, s' := HandleOne(p, s0, s.sender.wanted, l, info, n);
      Extend(p, s, steps0, s0, HandleControl(a));
      steps := steps0 + [HandleControl(a)];
    }
  }

  // Between rounds: the sender tests its state, and wants nothing but entries
  // of the receiver's ledger, which names exactly what has not come.
  ghost predicate BetweenRounds(p: Params, s: State, arrivals: seq<int>)
    requires WellFormed(p)
  {
    && ReadingExactly(p, s, arrivals)
    && s.sender.phase.AtLoopTest? && s.sender.retransferring && s.sender.handling
    && Progress.Exact(arrivals) && GapLedger.Run(arrivals).highest == Count(p) >= 1
    && Progress.EntriesOf(s.sender.wanted, GapLedger.Run(arrivals))
  }

  lemma TickIsInFlight(p: Params, s: State, l: Ledger, info: TickInfo)
    requires WellFormed(p) && Parallel(l) && s.receiver.reader.rx.ledger == l && l.highest >= 1
    requires s.receiver.phase == Reading && info == TickInfo(p.partId, s.receiver.reader.recvPackets, 0, 0)
    ensures var s' := RequestTickStep(p, s, 0, 0);
            && s'.sender == s.sender && s'.receiver == s.receiver
            && forall k :: 0 <= k < NumBlocks(|l.nums|) ==> RequestPacket(l, info, k) in s'.control
  {
    var packets := Tick(l, info);
    forall k | 0 <= k < NumBlocks(|l.nums|) ensures RequestPacket(l, info, k) in RequestTickStep(p, s, 0, 0).control {
      assert packets[k] == RequestPacket(l, info, k);
    }
  }

  lemma {:induction false} InvAfter(p: Params, s: State, steps: seq<Step>)
    requires WellFormed(p) && Inv(p, s)
    ensures Inv(p, RunFrom(p, s, steps))
  {
    if |steps| > 0 {
      InvAfter(p, s, steps[..|steps| - 1]);
      NextKeepsInv(p, RunFrom(p, s, steps[..|steps| - 1]), steps[|steps| - 1]);
    }
  }

  // A tick, all of it handled, and the start of a pass over what it collected.
  lemma RequestAndBegin(p: Params, s: State, l: Ledger) returns (steps: seq<Step>, s': State, info: TickInfo, w: Wanted)
    requires WellFormed(p) && Parallel(l) && s.receiver.reader.rx.ledger == l && l.highest >= 1
    requires s.receiver.phase == Reading
    requires s.sender.phase.AtLoopTest? && s.sender.retransferring && s.sender.handling
    ensures s' == RunFrom(p, s, steps) && Rounds(steps) == 1
    ensures w == Progress.MergeTick(s.sender.wanted, l, info, NumBlocks(|l.nums|))
    ensures s'.sender == Sender(InRound(|w.nums|, 0, 0), true, w, true) && s'.receiver == s.receiver
  {
    info := TickInfo(p.partId, s.receiver.reader.recvPackets, 0, 0);
    var tick := RequestTick(0, 0);
    RunFromOne(p, s, tick);
    RoundsOne(tick);
    var s0 := Next(p, s, tick);
    TickIsInFlight(p, s, l, info);
    var steps1, s1 := HandleTick(p, s0, l, info, NumBlocks(|l.nums|));
    Join(p, s, [tick], s0, steps1, s1);
    Extend(p, s, [tick] + steps1, s1, BeginRound);
    steps, s' := [tick] + steps1 + [BeginRound], Next(p, s1, BeginRound);
    w := s1.sender.wanted;
  }

  // ------------------------------------------------------------- one round

  // One lossless round, in steps.
  lemma RoundInSteps(p: Params, s: State, arrivals: seq<int>) returns (steps: seq<Step>, s': State, all: seq<int>)
    requires WellFormed(p) && BetweenRounds(p, s, arrivals)
    ensures s' == RunFrom(p, s, steps) && Rounds(steps) == 1
    ensures BetweenRounds(p, s', all)
    ensures Progress.EntriesLeft(all) <= Progress.EntriesLeft(arrivals) - Min(100, Progress.EntriesLeft(arrivals))
  {
    var steps0, s0, w;
    steps0, s0, w, all := RoundBegins(p, s, arrivals);
    steps, s' := RoundEnds(p, s, steps0, s0, w, arrivals, all);
  }

  // The half of a round up to the start of the pass.
  lemma RoundBegins(p: Params, s: State, arrivals: seq<int>)
    returns (steps: seq<Step>, s': State, w: Wanted, all: seq<int>)
    requires WellFormed(p) && BetweenRounds(p, s, arrivals)
    ensures s' == RunFrom(p, s, steps) && Rounds(steps) == 1
    ensures Resending(p, s', w, arrivals, 0, 0) && NamesPackets(w.nums, w.offs, Count(p))
    ensures all == arrivals + RetransferNumbers(w.nums, w.offs, Count(p), |w.nums|)
    ensures Progress.Exact(all) && GapLedger.Run(all).highest == Count(p) >= 1
    ensures Progress.EntriesLeft(all) <= Progress.EntriesLeft(arrivals) - Min(100, Progress.EntriesLeft(arrivals))
  {
    var l := GapLedger.Run(arrivals);
    ShapeOfRun(arrivals);
    LedgerIsRun(p, s.receiver);
    var info;
    steps, s', info, w := RequestAndBegin(p, s, l);
    InvAfter(p, s, steps);
    all := RoundResult(l, arrivals, s.sender.wanted, info, Count(p), w);
  }

  // The pass and its end.
  lemma RoundEnds(p: Params, s: State, steps0: seq<Step>, s0: State, w: Wanted, arrivals: seq<int>, all: seq<int>)
    returns (steps: seq<Step>, s': State)
    requires WellFormed(p) && s0 == RunFrom(p, s, steps0)
    requires Resending(p, s0, w, arrivals, 0, 0) && NamesPackets(w.nums, w.offs, Count(p))
    requires all == arrivals + RetransferNumbers(w.nums, w.offs, Count(p), |w.nums|)
    requires Progress.Exact(all) && GapLedger.Run(all).highest == Count(p) >= 1
    ensures s' == RunFrom(p, s, steps) && Rounds(steps) == Rounds(steps0)
    ensures BetweenRounds(p, s', all)
  {
    var steps1, s1 := ResendEntries(p, s0, w, arrivals, |w.nums|, all);
    Join(p, s, steps0, s0, steps1, s1);
    Extend(p, s, steps0 + steps1, s1, EndRound);
    NextKeepsInv(p, s1, EndRound);
    steps, s' := steps0 + steps1 + [EndRound], Next(p, s1, EndRound);
  }

  lemma RoundResult(l: Ledger, arrivals: seq<int>, w0: Wanted, info: TickInfo, count: int, w: Wanted)
    returns (all: seq<int>)
    requires Shape(l) && l == GapLedger.Run(arrivals) && l.highest == count && Progress.EntriesOf(w0, l)
    requires Progress.Exact(arrivals) && w == Progress.MergeTick(w0, l, info, NumBlocks(|l.nums|))
    ensures NamesPackets(w.nums, w.offs, count) && all == arrivals + RetransferNumbers(w.nums, w.offs, count, |w.nums|)
    ensures Progress.Exact(all) && GapLedger.Run(all).highest == count
    ensures Progress.EntriesLeft(all) <= |l.nums| - Min(100, |l.nums|)
  {
    Progress.TickIsCollected(w0, l, info, NumBlocks(|l.nums|));
    Progress.EntriesNamePackets(w, l, count);
    all := arrivals + RetransferNumbers(w.nums, w.offs, count, |w.nums|);
    Progress.RoundStaysExact(arrivals, l, w0, info, count);
    Progress.RoundShrinksLedger(w0, l, info, count);
    Progress.RunContinues(arrivals, RetransferNumbers(w.nums, w.offs, count, |w.nums|));
  }

  // ------------------------------------------------------------ completion

  // The part is whole on both sides and the sender has left the loop.
  ghost predicate Completed(p: Params, s: State)
    requires WellFormed(p)
  {
    s.sender.phase.Left? && s.receiver.reader.rx == Rx(Ledger(Count(p), [], []), p.src)
  }

  // ReadPart returns, the finish packet is handled and the sender leaves.
  lemma FinishAndLeave(p: Params, s: State) returns (steps: seq<Step>, s': State)
    requires WellFormed(p) && s.receiver.phase == Reading && |s.receiver.arrivals| + s.receiver.foreign >= Count(p)
    requires s.sender.phase.AtLoopTest? && s.sender.handling
    ensures s' == RunFrom(p, s, steps) && Rounds(steps) == 0
    ensures s'.sender.phase.Left? && s'.receiver == s.receiver.(phase := FinishSent)
  {
    var finish := PartFinish(p.partId, s.receiver.reader.recvPackets);
    var s0 := Next(p, s, FinishRead);
    RunFromOne(p, s, FinishRead);
    RoundsOne(FinishRead);
    assert finish in s0.control;
    var s1 := Next(p, s0, HandleControl(finish));
    Extend(p, s, [FinishRead], s0, HandleControl(finish));
    Extend(p, s, [FinishRead] + [HandleControl(finish)], s1, LeaveLoop);
    steps, s' := [FinishRead] + [HandleControl(finish)] + [LeaveLoop], Next(p, s1, LeaveLoop);
  }

  // With nothing left to ask for, the part is complete.
  lemma FinishInSteps(p: Params, s: State, arrivals: seq<int>) returns (steps: seq<Step>, s': State)
    requires WellFormed(p) && BetweenRounds(p, s, arrivals) && Progress.EntriesLeft(arrivals) == 0
    ensures s' == RunFrom(p, s, steps) && Rounds(steps) == 0
    ensures Completed(p, s')
  {
    Progress.ExactAndEmptyIsComplete(arrivals, Count(p));
    NoRepeatsStoresAll(arrivals);
    CompleteTransfer(p, arrivals);
    steps, s' := FinishAndLeave(p, s);
  }

  lemma {:induction false} RoundsInSteps(p: Params, s: State, arrivals: seq<int>) returns (steps: seq<Step>, s': State)
    requires WellFormed(p) && BetweenRounds(p, s, arrivals)
    ensures s' == RunFrom(p, s, steps) && Completed(p, s')
    ensures Rounds(steps) <= CeilDiv(Progress.EntriesLeft(arrivals), 100)
    decreases Progress.EntriesLeft(arrivals)
  {
    if Progress.EntriesLeft(arrivals) == 0 {
      steps, s' := FinishInSteps(p, s, arrivals);
    } else {
      var steps0, s0, all := RoundInSteps(p, s, arrivals);
      var steps1, s1 := RoundsInSteps(p, s0, all);
      Join(p, s, steps0, s0, steps1, s1);
      steps, s' := steps0 + steps1, s1;
      OneRoundFewer(Progress.EntriesLeft(arrivals), Progress.EntriesLeft(all));
    }
  }

  lemma OneRoundFewer(before: nat, after: nat)
    requires before > 0 && after <= before - Min(100, before)
    ensures CeilDiv(after, 100) + 1 <= CeilDiv(before, 100)
  {
  }

  // ------------------------------------------- requests of a first pass

  // The lists name whole entries of the ledger.
  ghost predicate EntriesListed(nums: seq<int>, offs: seq<int>, l: Ledger)
  {
    && |nums| == |offs| && Parallel(l)
    && forall i :: 0 <= i < |nums| ==> Progress.IsEntry(l, nums[i], offs[i])
  }

  // As long as packets arrive in order, whatever was requested or collected is
  // still, entry for entry, in the receiver's ledger.
  ghost predicate RequestsStand(s: State)
  {
    var l := GapLedger.Run(s.receiver.arrivals);
    Increasing(s.receiver.arrivals) ==>
      && Keyed(s.sender.wanted) && EntriesListed(s.sender.wanted.nums, s.sender.wanted.offs, l)
      && forall a :: a in s.control && !a.partFinished ==>
           EntriesListed(a.missingSequenceNumbers, a.missingSequenceNumberOffsets, l)
  }

  lemma GrowKeepsListed(nums: seq<int>, offs: seq<int>, l: Ledger, n: int)
    requires Shape(l) && n > l.highest && EntriesListed(nums, offs, l)
    ensures EntriesListed(nums, offs, Arrive(l, n))
  {
    if n > l.highest + 1 {
      OpenKeepsShape(l, n);
    }
    var r := Arrive(l, n);
    forall i | 0 <= i < |nums| ensures Progress.IsEntry(r, nums[i], offs[i]) {
      assert Progress.IsEntry(l, nums[i], offs[i]);
      var k :| 0 <= k < |l.nums| && l.nums[k] == nums[i] && l.offs[k] == offs[i];
      assert r.nums[k] == nums[i] && r.offs[k] == offs[i];
    }
  }

  lemma ArrivalKeepsRequests(s: State, s': State, arrivals: seq<int>, n: int)
    requires RequestsStand(s) && s'.sender == s.sender && s'.control == s.control
    requires s.receiver.arrivals == arrivals && s'.receiver.arrivals == arrivals + [n] && Positive(arrivals + [n])
    ensures RequestsStand(s')
  {
    if Increasing(arrivals + [n]) {
      OrderedPrefix(arrivals, n);
      Progress.FirstPassIsExact(arrivals);
      ShapeOfRun(arrivals);
      var l := GapLedger.Run(arrivals);
      assert (arrivals + [n])[..|arrivals|] == arrivals;
      GrowKeepsListed(s.sender.wanted.nums, s.sender.wanted.offs, l, n);
      forall a | a in s.control && !a.partFinished
        ensures EntriesListed(a.missingSequenceNumbers, a.missingSequenceNumberOffsets, Arrive(l, n))
      {
        GrowKeepsListed(a.missingSequenceNumbers, a.missingSequenceNumberOffsets, l, n);
      }
    }
  }

  lemma OrderedPrefix(arrivals: seq<int>, n: int)
    requires Increasing(arrivals + [n]) && Positive(arrivals + [n])
    ensures Increasing(arrivals) && Positive(arrivals)
    ensures n > if |arrivals| == 0 then 0 else arrivals[|arrivals| - 1]
  {
    var all := arrivals + [n];
    assert forall k :: 0 <= k < |arrivals| ==> arrivals[k] == all[k];
    assert all[|arrivals|] == n;
    assert |arrivals| > 0 ==> all[|arrivals| - 1] < all[|arrivals|];
  }

  // A read adds at most one arrival and leaves the rest of the system alone.
  lemma ReadAddsOne(p: Params, s: State, datagram: seq<byte>) returns (added: seq<int>)
    requires WellFormed(p)
    ensures var s' := ReadStep(p, s, datagram);
            && s'.sender == s.sender && s'.control == s.control
            && |added| <= 1 && s'.receiver.arrivals == s.receiver.arrivals + added
  {
    var s' := ReadStep(p, s, datagram);
    if s'.receiver.arrivals == s.receiver.arrivals {
      added := [];
    } else {
      added := [s'.receiver.arrivals[|s.receiver.arrivals|]];
    }
  }

  lemma ReadKeepsRequests(p: Params, s: State, datagram: seq<byte>)
    requires WellFormed(p) && Inv(p, s) && RequestsStand(s)
    ensures RequestsStand(ReadStep(p, s, datagram))
  {
    var added := ReadAddsOne(p, s, datagram);
    ReadKeepsInv(p, s, datagram);
    if |added| == 1 {
      assert added == [added[0]];
      ArrivalKeepsRequests(s, ReadStep(p, s, datagram), s.receiver.arrivals, added[0]);
    } else {
      assert s.receiver.arrivals + added == s.receiver.arrivals;
    }
  }

  lemma TickIsListed(l: Ledger, info: TickInfo)
    requires Parallel(l)
    ensures forall k :: 0 <= k < |Tick(l, info)| ==>
              EntriesListed(Tick(l, info)[k].missingSequenceNumbers, Tick(l, info)[k].missingSequenceNumberOffsets, l)
  {
    forall k | 0 <= k < |Tick(l, info)|
      ensures EntriesListed(Tick(l, info)[k].missingSequenceNumbers, Tick(l, info)[k].missingSequenceNumberOffsets, l)
    {
      Progress.RequestIsBlock(l, info, k);
    }
  }

  lemma TickKeepsRequests(p: Params, s: State, txId: int, id: int)
    requires WellFormed(p) && Inv(p, s) && RequestsStand(s)
    ensures RequestsStand(RequestTickStep(p, s, txId, id))
  {
    LedgerIsRun(p, s.receiver);
    TickIsListed(s.receiver.reader.rx.ledger, TickInfo(p.partId, s.receiver.reader.recvPackets, txId, id));
  }

  lemma HandleKeepsRequests(s: State, a: AckPacket)
    requires RequestsStand(s)
    ensures RequestsStand(HandleControlStep(s, a))
  {
    if Increasing(s.receiver.arrivals) && a in s.control && !a.partFinished {
      PairedListsMerge(s.sender.wanted, a.missingSequenceNumbers, a.missingSequenceNumberOffsets,
                       |a.missingSequenceNumbers|);
      Progress.MergeKeepsEntries(s.sender.wanted, GapLedger.Run(s.receiver.arrivals),
                                 a.missingSequenceNumbers, a.missingSequenceNumberOffsets);
    }
  }

  // A step that requests nothing, collects nothing and reads nothing.
  ghost predicate LeavesRequests(s: State, s': State)
  {
    && s'.receiver.arrivals == s.receiver.arrivals
    && (s'.sender.wanted == s.sender.wanted || s'.sender.wanted == Wanted([], []))
    && forall a :: a in s'.control && !a.partFinished ==> a in s.control
  }

  lemma LeftRequestsStand(s: State, s': State)
    requires RequestsStand(s) && LeavesRequests(s, s')
    ensures RequestsStand(s')
  {
  }

  lemma OtherStepsLeaveRequests(p: Params, s: State, step: Step)
    requires WellFormed(p) && !step.HandleControl? && !step.Read? && !step.RequestTick?
    ensures LeavesRequests(s, Next(p, s, step))
  {
  }

  lemma {:induction false} RequestsStandInEveryRun(p: Params, steps: seq<Step>)
    requires WellFormed(p)
    ensures RequestsStand(After(p, steps))
  {
    if |steps| > 0 {
      var s := After(p, steps[..|steps| - 1]);
      RequestsStandInEveryRun(p, steps[..|steps| - 1]);
      InvHolds(p, steps[..|steps| - 1]);
      match steps[|steps| - 1]
      case HandleControl(a) => HandleKeepsRequests(s, a);
      case Read(datagram) => ReadKeepsRequests(p, s, datagram);
      case RequestTick(txId, id) => TickKeepsRequests(p, s, txId, id);
      case _ => OtherStepsLeaveRequests(p, s, steps[|steps| - 1]); LeftRequestsStand(s, After(p, steps));
    }
  }

  // The sender has entered the loop and still handles control packets, the
  // receiver still reads, and the packets read so far came in order; any of
  // them may have been lost but the last.
  ghost predicate FirstPassDone(p: Params, s: State)
    requires WellFormed(p)
  {
    var r := s.receiver;
    && s.sender.phase.AtLoopTest? && s.sender.retransferring && s.sender.handling
    && r.phase == Reading && r.foreign == 0
    && Increasing(r.arrivals) && |r.arrivals| > 0 && r.arrivals[|r.arrivals| - 1] == Count(p)
  }

  // From every such state the transfer can be completed within ceil(L/100)
  // retransfer rounds, L being the length of the receiver's ledger, although a
  // tick skips blocks of a long ledger: the sender leaves the loop, and the
  // receiver holds the sender's data.
  lemma CanComplete(p: Params, past: seq<Step>) returns (more: seq<Step>)
    requires WellFormed(p) && FirstPassDone(p, After(p, past))
    ensures Completed(p, After(p, past + more))
    ensures Rounds(more) <= CeilDiv(|After(p, past).receiver.reader.rx.ledger.nums|, 100)
  {
    var s := After(p, past);
    InvHolds(p, past);
    LedgerIsRun(p, s.receiver);
    Progress.FirstPassIsExact(s.receiver.arrivals);
    RequestsStandInEveryRun(p, past);
    assert BetweenRounds(p, s, s.receiver.arrivals);
    var steps, s' := RoundsInSteps(p, s, s.receiver.arrivals);
    more := steps;
    RunFromConcat(p, Init(p), past, more);
  }
}
