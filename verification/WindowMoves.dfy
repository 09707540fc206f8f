// What moves the congestion window and by how much, told by the messages of a run
// (controlplane/ratecontrol.go:75-159).
module WindowMoves {
  import opened Utils
  import opened Messages
  import opened RateControl
  import opened RateControlRuns

  // The last packet of a transmission ends an epoch.
  predicate EndsEpoch(e: Event)
  {
    e.Ack? && e.msg.packetTxIndex >= e.msg.numPacketsPerTx - 1
  }

  // ----------------------------------------------------- the loss of a run

  // What the requests since the last epoch's end reported missing.
  function Pending(events: seq<Event>): int
  {
    if |events| == 0 then 0
    else
      var p, e := events[..|events| - 1], events[|events| - 1];
      if !e.Ack? then Pending(p)
      else if EndsEpoch(e) then 0
      else Pending(p) + Total(e.msg.missingSequenceNumberOffsets)
  }

  // What the last epoch reported missing in all, and received.
  function LastMissing(events: seq<Event>): int
  {
    if |events| == 0 then 0
    else
      var p, e := events[..|events| - 1], events[|events| - 1];
      if EndsEpoch(e) then Pending(p) + Total(e.msg.missingSequenceNumberOffsets) else LastMissing(p)
  }

  function LastReceived(events: seq<Event>): int
  {
    if |events| == 0 then 0
    else
      var p, e := events[..|events| - 1], events[|events| - 1];
      if EndsEpoch(e) then e.msg.numPackets else LastReceived(p)
  }

  // The last epoch has lost at least one packet in twenty: newly missing packets
  // over newly received ones, whatever their signs.
  predicate HighLoss(events: seq<Event>)
  {
    if |events| == 0 then false
    else
      var p, e := events[..|events| - 1], events[|events| - 1];
      if !EndsEpoch(e) then HighLoss(p)
      else
        var missing := Pending(p) + Total(e.msg.missingSequenceNumberOffsets) - LastMissing(p);
        var received := e.msg.numPackets - LastReceived(p);
        if received > 0 then 100 * missing >= 5 * received
        else if received < 0 then 100 * missing <= 5 * received
        else HighLoss(p)
  }

  lemma {:induction false} AccountMirrorsHistory(events: seq<Event>)
    ensures var rc := Run(INITIAL, events);
            && rc.curMissing == Pending(events) && rc.lastMissing == LastMissing(events)
            && rc.curChecked == LastReceived(events)
            && (rc.lossPercent >= 5 <==> HighLoss(events))
  {
    if |events| > 0 {
      var p, e := events[..|events| - 1], events[|events| - 1];
      AccountMirrorsHistory(p);
      if e.Ack? {
        AccountStep(Run(INITIAL, p), e.msg);
      }
    }
  }

  lemma AccountStep(rc: Rc, msg: AckPacket)
    ensures var r := AddAck(rc, msg);
            var missing := rc.curMissing + Total(msg.missingSequenceNumberOffsets);
            if EndsEpoch(Ack(msg))
            then r.curMissing == 0 && r.lastMissing == missing && r.curChecked == msg.numPackets
                 && (r.lossPercent >= 5 <==> LossyEpoch(rc, msg))
            else r == rc.(curMissing := missing)
  {
    JudgedByTrueQuotient(rc, msg);
  }

  // The epoch that e ends is judged by the history of the whole run.
  lemma JudgedByHistory(events: seq<Event>, e: Event)
    requires EndsEpoch(e)
    ensures HighLoss(events + [e]) <==> LossyEpoch(Run(INITIAL, events), e.msg)
  {
    assert (events + [e])[..|events|] == events;
    AccountMirrorsHistory(events);
  }

  // --------------------------------------------------- loss-free PROBE epochs

  // Loss-free epochs ended in PROBE since the last lossy one there, across stops
  // and restarts.
  function CleanProbes(events: seq<Event>): nat
  {
    if |events| == 0 then 0
    else
      var p, e := events[..|events| - 1], events[|events| - 1];
      if EndsEpoch(e) && Run(INITIAL, p).phase == Probe
      then if HighLoss(events) then 0 else CleanProbes(p) + 1
      else CleanProbes(p)
  }

  lemma {:induction false} ProbeCountMirrorsHistory(events: seq<Event>)
    ensures Run(INITIAL, events).probeIncrease == CleanProbes(events)
  {
    if |events| > 0 {
      var p, e := events[..|events| - 1], events[|events| - 1];
      ProbeCountMirrorsHistory(p);
      if EndsEpoch(e) {
        assert p + [e] == events;
        JudgedByHistory(p, e);
        JudgedByTrueQuotient(Run(INITIAL, p), e.msg);
      }
    }
  }

  // ---------------------------------------------------------------- one epoch

  // What the end of an epoch does to a window w: each cut takes the rounded-down
  // share, each rise is rounded down and stops at the maximum. sits: the epoch is
  // one of those that DRAIN leaves unjudged. twentieth: it is the twentieth
  // loss-free one of PROBE, or the fortieth, and so on.
  ghost predicate MovesTo(w: int, phase: Phase, lossy: bool, sits: bool, twentieth: bool, w': int)
  {
    match phase
    case Idle => w' == w
    case Startup => if lossy then w <= 2 * w' < w + 2 else w' == Min(4 * w / 3, 150000)
    case Drain => if lossy && !sits then 2 * w <= 3 * w' < 2 * w + 3 else w' == w
    case Probe =>
      if lossy then 3 * w <= 4 * w' < 3 * w + 4
      else w' == if twentieth then Min(6 * w / 5, 150000) else w
  }

  lemma EpochMoves(rc: Rc, msg: AckPacket, lossy: bool, sits: bool, twentieth: bool)
    requires EndsEpoch(Ack(msg)) && 1 <= rc.window <= 150000 && lossy == LossyEpoch(rc, msg)
    requires sits == (1 <= rc.drainLoss <= 4) && twentieth == ((rc.probeIncrease + 1) % 20 == 0)
    ensures MovesTo(rc.window, rc.phase, lossy, sits, twentieth, AddAck(rc, msg).window)
  {
    JudgedByTrueQuotient(rc, msg);
    assert 4 * rc.window / 3 == rc.window + rc.window / 3;
    assert 6 * rc.window / 5 == rc.window + rc.window / 5;
  }

  // ----------------------------------------------------------------- whole runs

  // The second to fifth epochs of DRAIN, over the life of the connection, sit out.
  predicate SitsOut(events: seq<Event>)
  {
    1 <= DrainEpochs(events) <= 4
  }

  lemma SitsOutByHistory(events: seq<Event>)
    ensures SitsOut(events) == (1 <= Run(INITIAL, events).drainLoss <= 4)
  {
    WaitsOnlyOnce(events);
  }

  predicate TwentiethOfProbe(events: seq<Event>)
  {
    (CleanProbes(events) + 1) % 20 == 0
  }

  lemma TwentiethOfProbeByHistory(events: seq<Event>)
    ensures TwentiethOfProbe(events) == ((Run(INITIAL, events).probeIncrease + 1) % 20 == 0)
  {
    ProbeCountMirrorsHistory(events);
  }

  lemma WindowAtEpoch(events: seq<Event>, msg: AckPacket, rc: Rc)
    requires EndsEpoch(Ack(msg)) && rc == Run(INITIAL, events)
    ensures MovesTo(rc.window, rc.phase, HighLoss(events + [Ack(msg)]), SitsOut(events), TwentiethOfProbe(events),
                    AddAck(rc, msg).window)
  {
    var lossy, sits, twentieth := HighLoss(events + [Ack(msg)]), SitsOut(events), TwentiethOfProbe(events);
    WindowStaysInRange(events);
    SitsOutByHistory(events);
    TwentiethOfProbeByHistory(events);
    JudgedByHistory(events, Ack(msg));
    EpochMoves(rc, msg, lossy, sits, twentieth);
  }

  lemma BetweenEpochs(rc: Rc, e: Event)
    requires !EndsEpoch(e)
    ensures Next(rc, e).window == rc.window
    ensures Next(rc, e).phase == match e case Start => Startup case Stop => Idle case Ack(_) => rc.phase
  {
  }

  // In every run the window moves only at the end of an epoch, and then by the
  // history alone.
  lemma WindowMoves(events: seq<Event>, e: Event)
    ensures var rc := Run(INITIAL, events);
            if EndsEpoch(e)
            then MovesTo(rc.window, rc.phase, HighLoss(events + [e]), SitsOut(events), TwentiethOfProbe(events),
                         Next(rc, e).window)
            else Next(rc, e).window == rc.window
  {
    if EndsEpoch(e) {
      WindowAtEpoch(events, e.msg, Run(INITIAL, events));
    } else {
      BetweenEpochs(Run(INITIAL, events), e);
    }
  }

  // The window falls exactly at a loss that is judged, unless it is too small for
  // its share.
  lemma WindowFallsExactlyAtLoss(events: seq<Event>, e: Event)
    ensures var rc := Run(INITIAL, events);
            Next(rc, e).window < rc.window <==>
              && EndsEpoch(e) && HighLoss(events + [e])
              && match rc.phase
                 case Startup => rc.window >= 2
                 case Drain => rc.window >= 3 && !SitsOut(events)
                 case Probe => rc.window >= 4
                 case Idle => false
  {
    WindowMoves(events, e);
    WindowStaysInRange(events);
  }

  // It grows exactly at a loss-free epoch of STARTUP and at every twentieth
  // loss-free epoch of PROBE, unless it is too small for its share or at the
  // maximum.
  lemma WindowGrowsExactly(events: seq<Event>, e: Event)
    ensures var rc := Run(INITIAL, events);
            Next(rc, e).window > rc.window <==>
              && EndsEpoch(e) && !HighLoss(events + [e]) && rc.window < 150000
              && match rc.phase
                 case Startup => rc.window >= 3
                 case Probe => rc.window >= 5 && TwentiethOfProbe(events)
                 case _ => false
  {
    WindowMoves(events, e);
    WindowStaysInRange(events);
  }

  // The phase after an epoch. twentieth: of the loss-free epochs judged in DRAIN.
  function PhaseAfter(phase: Phase, lossy: bool, sits: bool, twentieth: bool): Phase
  {
    match phase
    case Idle => Idle
    case Startup => if lossy then Drain else Startup
    case Drain => if !sits && !lossy && twentieth then Probe else Drain
    case Probe => if lossy then Drain else Probe
  }

  lemma EpochPhase(rc: Rc, msg: AckPacket, lossy: bool, sits: bool, twentieth: bool)
    requires EndsEpoch(Ack(msg)) && lossy == LossyEpoch(rc, msg)
    requires sits == (1 <= rc.drainLoss <= 4) && twentieth == ((rc.drainIncrease + 1) % 20 == 0)
    ensures AddAck(rc, msg).phase == PhaseAfter(rc.phase, lossy, sits, twentieth)
  {
    JudgedByTrueQuotient(rc, msg);
  }

  predicate TwentiethOfDrain(events: seq<Event>)
  {
    CleanSince(events) == 19
  }

  lemma TwentiethOfDrainByHistory(events: seq<Event>)
    ensures TwentiethOfDrain(events) == ((Run(INITIAL, events).drainIncrease + 1) % 20 == 0)
  {
    DrainCountMirrorsHistory(events);
  }

  lemma PhaseAtEpoch(events: seq<Event>, msg: AckPacket, rc: Rc)
    requires EndsEpoch(Ack(msg)) && rc == Run(INITIAL, events)
    ensures AddAck(rc, msg).phase
         == PhaseAfter(rc.phase, HighLoss(events + [Ack(msg)]), SitsOut(events), TwentiethOfDrain(events))
  {
    var lossy, sits, twentieth := HighLoss(events + [Ack(msg)]), SitsOut(events), TwentiethOfDrain(events);
    SitsOutByHistory(events);
    TwentiethOfDrainByHistory(events);
    JudgedByHistory(events, Ack(msg));
    EpochPhase(rc, msg, lossy, sits, twentieth);
  }

  // The phase, too, follows the history alone.
  lemma PhaseMoves(events: seq<Event>, e: Event)
    ensures var rc := Run(INITIAL, events);
            Next(rc, e).phase ==
              match e
              case Start => Startup
              case Stop => Idle
              case Ack(_) =>
                if EndsEpoch(e)
                then PhaseAfter(rc.phase, HighLoss(events + [e]), SitsOut(events), TwentiethOfDrain(events))
                else rc.phase
  {
    if EndsEpoch(e) {
      PhaseAtEpoch(events, e.msg, Run(INITIAL, events));
    } else {
      BetweenEpochs(Run(INITIAL, events), e);
    }
  }
}
