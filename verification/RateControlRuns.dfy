// Properties of the congestion window over whole runs of Start, Stop and
// AddAckMessage.
module RateControlRuns {
  import opened Utils
  import opened Messages
  import opened RateControl

  datatype Event = Start | Stop | Ack(msg: AckPacket)

  function Next(rc: Rc, e: Event): Rc
  {
    match e
    case Start => rc.(phase := Startup)
    case Stop => rc.(phase := Idle)
    case Ack(msg) => AddAck(rc, msg)
  }

  function Run(rc: Rc, events: seq<Event>): Rc
  {
    if |events| == 0 then rc
    else Next(Run(rc, events[..|events| - 1]), events[|events| - 1])
  }

  // ---------------------------------------------------------- window bounds

  lemma {:induction false} WindowStaysInRange(events: seq<Event>)
    ensures 1 <= Run(INITIAL, events).window <= 150000
  {
    if |events| > 0 {
      WindowStaysInRange(events[..|events| - 1]);
    }
  }

  // A window of one or two never grows again, restarts included.
  lemma {:induction false} SmallWindowIsAbsorbing(rc: Rc, events: seq<Event>)
    requires 1 <= rc.window <= 2
    ensures 1 <= Run(rc, events).window <= 2
  {
    if |events| > 0 {
      SmallWindowIsAbsorbing(rc, events[..|events| - 1]);
    }
  }

  // ------------------------------------------------------------------- loss

  // The epoch that msg closes has lost at least one packet in twenty: the true
  // quotient reaches 5, whatever the sign of its divisor. An overtaken request
  // makes the divisor negative; at zero the last epoch's judgement stays.
  predicate LossyEpoch(rc: Rc, msg: AckPacket)
  {
    var missing := rc.curMissing + Total(msg.missingSequenceNumberOffsets) - rc.lastMissing;
    var received := msg.numPackets - rc.curChecked;
    if received > 0 then 100 * missing >= 5 * received
    else if received < 0 then 100 * missing <= 5 * received
    else rc.lossPercent >= 5
  }

  // The truncated percentage judges every epoch as the true one would.
  lemma JudgedByTrueQuotient(rc: Rc, msg: AckPacket)
    ensures Lossy(rc.(lossPercent := Loss(rc, msg))) <==> LossyEpoch(rc, msg)
  {
    var missing := rc.curMissing + Total(msg.missingSequenceNumberOffsets) - rc.lastMissing;
    var received := msg.numPackets - rc.curChecked;
    if received != 0 {
      TruncDivAtLeast(missing * 100, received, 5);
    }
  }

  // ---------------------------------------------------------------- startup

  // Whatever phase change the caller asks for, and however many packets make up
  // an epoch: each epoch that is closed in startup is judged loss-free.
  predicate LossFree(rc: Rc, events: seq<Event>)
  {
    if |events| == 0 then rc.phase == Startup || rc.phase == Idle
    else
      var p, e := events[..|events| - 1], events[|events| - 1];
      && LossFree(rc, p)
      && (ClosesStartupEpoch(Run(rc, p), e) ==> !LossyEpoch(Run(rc, p), e.msg))
  }

  predicate ClosesStartupEpoch(rc: Rc, e: Event)
  {
    rc.phase == Startup && e.Ack? && Closes(e.msg)
  }

  function StartupEpochs(rc: Rc, events: seq<Event>): nat
  {
    if |events| == 0 then 0
    else
      var p, e := events[..|events| - 1], events[|events| - 1];
      StartupEpochs(rc, p) + if ClosesStartupEpoch(Run(rc, p), e) then 1 else 0
  }

  function Grow(w: nat): nat
  {
    Min(w + w / 3, CONGESTION_WINDOW_MAX)
  }

  function GrowBy(w: nat, epochs: nat): nat
    decreases epochs
  {
    if epochs == 0 then w else GrowBy(Grow(w), epochs - 1)
  }

  // How many loss-free epochs a window is away from the maximum.
  function EpochsToMaximum(w: nat): (n: nat)
    requires 3 <= w <= CONGESTION_WINDOW_MAX
    ensures n <= CONGESTION_WINDOW_MAX - w
    decreases CONGESTION_WINDOW_MAX - w
  {
    if w == CONGESTION_WINDOW_MAX then 0 else 1 + EpochsToMaximum(Grow(w))
  }

  lemma {:induction false} GrowLast(w: nat, epochs: nat)
    ensures GrowBy(w, epochs + 1) == Grow(GrowBy(w, epochs))
    decreases epochs
  {
    if epochs > 0 {
      GrowLast(Grow(w), epochs - 1);
    }
  }

  lemma {:induction false} LossFreeGrows(rc: Rc, events: seq<Event>)
    requires LossFree(rc, events) && 1 <= rc.window <= CONGESTION_WINDOW_MAX
    ensures var r := Run(rc, events);
            (r.phase == Startup || r.phase == Idle) && r.window == GrowBy(rc.window, StartupEpochs(rc, events))
  {
    if |events| > 0 {
      var p, e := events[..|events| - 1], events[|events| - 1];
      LossFreeGrows(rc, p);
      if ClosesStartupEpoch(Run(rc, p), e) {
        JudgedByTrueQuotient(Run(rc, p), e.msg);
      }
      GrowLast(rc.window, StartupEpochs(rc, events[..|events| - 1]));
    }
  }

  lemma {:induction false} GrowthReachesMaximum(w: nat, epochs: nat)
    requires 3 <= w <= CONGESTION_WINDOW_MAX
    ensures GrowBy(w, epochs) == CONGESTION_WINDOW_MAX <==> epochs >= EpochsToMaximum(w)
    decreases epochs
  {
    if epochs > 0 {
      GrowthReachesMaximum(Grow(w), epochs - 1);
    }
  }

  lemma {:induction false} SmallGrowthStays(w: nat, epochs: nat)
    requires w < 3
    ensures GrowBy(w, epochs) == w
    decreases epochs
  {
    if epochs > 0 {
      SmallGrowthStays(Grow(w), epochs - 1);
    }
  }

  // Loss-free startup epochs take a window to exactly the maximum if and only
  // if it starts at three or more and there are enough of them. Messages that
  // close no epoch, and stops and restarts in between, do not matter.
  lemma StartupReachesMaximum(rc: Rc, events: seq<Event>)
    requires LossFree(rc, events) && 1 <= rc.window <= CONGESTION_WINDOW_MAX
    ensures Run(rc, events).window == 150000
       <==> rc.window >= 3 && StartupEpochs(rc, events) >= EpochsToMaximum(rc.window)
  {
    LossFreeGrows(rc, events);
    if rc.window >= 3 {
      GrowthReachesMaximum(rc.window, StartupEpochs(rc, events));
    } else {
      SmallGrowthStays(rc.window, StartupEpochs(rc, events));
    }
  }

  // Until the maximum, each such epoch grows the window.
  lemma EachEpochGrows(rc: Rc, msg: AckPacket)
    requires ClosesStartupEpoch(rc, Ack(msg)) && !LossyEpoch(rc, msg)
    requires 3 <= rc.window < 150000
    ensures rc.window < AddAck(rc, msg).window <= 150000
  {
    JudgedByTrueQuotient(rc, msg);
  }

  // -------------------------------------------------------- phase discipline

  // What an event means for the drain phase. The second to fifth epochs that
  // a connection closes in DRAIN are not judged.
  datatype Kind = CountedLoss | CountedClean | Other

  function KindOf(rc: Rc, e: Event): Kind
  {
    if e.Ack? && Closes(e.msg) && rc.phase == Drain && !(1 <= rc.drainLoss <= 4) then
      if LossyEpoch(rc, e.msg) then CountedLoss else CountedClean
    else Other
  }

  predicate EntersProbe(rc: Rc, e: Event)
  {
    rc.phase != Probe && Next(rc, e).phase == Probe
  }

  lemma DrainStep(rc: Rc, e: Event)
    ensures match KindOf(rc, e)
            case CountedLoss => Next(rc, e).drainIncrease == 0 && !EntersProbe(rc, e)
            case CountedClean =>
              && Next(rc, e).drainIncrease == rc.drainIncrease + 1
              && (EntersProbe(rc, e) <==> (rc.drainIncrease + 1) % DRAIN_INCREASE_WINDOW == 0)
            case Other => Next(rc, e).drainIncrease == rc.drainIncrease && !EntersProbe(rc, e)
  {
    if e.Ack? {
      JudgedByTrueQuotient(rc, e.msg);
    }
  }

  lemma StartupOnlyByStart(rc: Rc, e: Event)
    requires rc.phase != Startup
    ensures Next(rc, e).phase == Startup <==> e == Start
  {
  }

  lemma NextRest(n: nat)
    ensures (n + 1) % 20 == if n % 20 == 19 then 0 else n % 20 + 1
  {
  }

  // The history a connection does not store: counted loss-free drain epochs
  // since the later of the last entry into PROBE and the last counted loss.
  function CleanSince(events: seq<Event>): nat
  {
    if |events| == 0 then 0
    else
      var p, e := events[..|events| - 1], events[|events| - 1];
      var before := Run(INITIAL, p);
      if EntersProbe(before, e) || KindOf(before, e) == CountedLoss then 0
      else if KindOf(before, e) == CountedClean then CleanSince(p) + 1
      else CleanSince(p)
  }

  // One event, on a counter that mirrors the history.
  lemma CountedOneMore(rc: Rc, e: Event, before: nat, after: nat)
    requires before == rc.drainIncrease % DRAIN_INCREASE_WINDOW
    requires after == if EntersProbe(rc, e) || KindOf(rc, e) == CountedLoss then 0
                      else if KindOf(rc, e) == CountedClean then before + 1
                      else before
    ensures after < DRAIN_INCREASE_WINDOW && Next(rc, e).drainIncrease % DRAIN_INCREASE_WINDOW == after
    ensures (after == 19) == ((Next(rc, e).drainIncrease + 1) % 20 == 0)
  {
    DrainStep(rc, e);
    NextRest(rc.drainIncrease);
    NextRest(Next(rc, e).drainIncrease);
  }

  lemma {:induction false} DrainCountMirrorsHistory(events: seq<Event>)
    ensures Run(INITIAL, events).drainIncrease % 20 == CleanSince(events) < 20
    ensures (CleanSince(events) == 19) == ((Run(INITIAL, events).drainIncrease + 1) % 20 == 0)
  {
    if |events| > 0 {
      var p, e := events[..|events| - 1], events[|events| - 1];
      DrainCountMirrorsHistory(p);
      CountedOneMore(Run(INITIAL, p), e, CleanSince(p), CleanSince(events));
    }
  }

  // PROBE is entered exactly by the twentieth counted loss-free epoch of DRAIN
  // since then; STARTUP exactly by Start.
  lemma PhaseDiscipline(events: seq<Event>, e: Event)
    ensures var rc := Run(INITIAL, events);
            && (EntersProbe(rc, e) <==>
                KindOf(rc, e) == CountedClean && CleanSince(events) == 19)
            && (rc.phase != Startup ==> (Next(rc, e).phase == Startup <==> e == Start))
  {
    var rc := Run(INITIAL, events);
    DrainCountMirrorsHistory(events);
    DrainStep(rc, e);
    NextRest(rc.drainIncrease);
    if rc.phase != Startup {
      StartupOnlyByStart(rc, e);
    }
  }

  // Epochs closed while draining, over the whole life of the connection.
  function DrainEpochs(events: seq<Event>): nat
  {
    if |events| == 0 then 0
    else
      var p, e := events[..|events| - 1], events[|events| - 1];
      DrainEpochs(p) + if e.Ack? && Closes(e.msg) && Run(INITIAL, p).phase == Drain then 1 else 0
  }

  // The wait after entering DRAIN happens once per connection, not once per
  // drain phase: an epoch closed in DRAIN goes unjudged exactly when it is the
  // second to fifth such epoch since the connection was made.
  lemma {:induction false} WaitsOnlyOnce(events: seq<Event>)
    ensures Run(INITIAL, events).drainLoss == DrainEpochs(events)
    ensures |events| > 0 ==>
              var p, e := events[..|events| - 1], events[|events| - 1];
              e.Ack? && Closes(e.msg) && Run(INITIAL, p).phase == Drain ==>
                (KindOf(Run(INITIAL, p), e) == Other <==> 2 <= DrainEpochs(events) <= 5)
  {
    if |events| > 0 {
      WaitsOnlyOnce(events[..|events| - 1]);
    }
  }
}
