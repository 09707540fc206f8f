// The sender's congestion window (controlplane/ratecontrol.go).
module RateControl {
  import opened Utils
  import opened Messages

  const START_CONGESTION_WINDOW := 100
  const CONGESTION_WINDOW_MAX := 150000
  const PACKET_LOSS_THRESHOLD_PERCENT := 5
  const DRAIN_INCREASE_WINDOW := 20

  datatype Phase = Startup | Drain | Probe | Idle

  datatype Rc = Rc(
    window: int,
    phase: Phase,
    lossPercent: int,
    curMissing: int,
    curChecked: int,
    lastMissing: int,
    drainIncrease: nat,
    drainLoss: nat,
    probeIncrease: nat)

  const INITIAL := Rc(START_CONGESTION_WINDOW, Idle, 0, 0, 0, 0, 0, 0, 0)

  // The last packet of a transmission closes an epoch.
  predicate Closes(msg: AckPacket)
  {
    msg.packetTxIndex >= msg.numPacketsPerTx - 1
  }

  // The loss that an epoch closed by msg is judged by. With no packet checked
  // since the last epoch the earlier figure stays.
  function Loss(rc: Rc, msg: AckPacket): int
  {
    var missing := rc.curMissing + Total(msg.missingSequenceNumberOffsets) - rc.lastMissing;
    if msg.numPackets != rc.curChecked
    then TruncDiv(missing * 100, msg.numPackets - rc.curChecked)
    else rc.lossPercent
  }

  function Account(rc: Rc, msg: AckPacket): Rc
  {
    var missing := rc.curMissing + Total(msg.missingSequenceNumberOffsets);
    if Closes(msg)
    then rc.(lossPercent := Loss(rc, msg), lastMissing := missing, curMissing := 0, curChecked := msg.numPackets)
    else rc.(curMissing := missing)
  }

  predicate Lossy(rc: Rc)
  {
    rc.lossPercent >= PACKET_LOSS_THRESHOLD_PERCENT
  }

  function Adjust(rc: Rc): Rc
  {
    match rc.phase
    case Probe =>
      if Lossy(rc) then rc.(window := rc.window - rc.window / 4, phase := Drain, probeIncrease := 0)
      else if (rc.probeIncrease + 1) % DRAIN_INCREASE_WINDOW == 0
      then rc.(probeIncrease := rc.probeIncrease + 1,
               window := Min(rc.window + rc.window / 5, CONGESTION_WINDOW_MAX))
      else rc.(probeIncrease := rc.probeIncrease + 1)
    case Drain =>
      var n := rc.drainLoss + 1;
      if 1 < n <= 5 then rc.(drainLoss := n)
      else if Lossy(rc) then rc.(drainLoss := n, window := rc.window - rc.window / 3, drainIncrease := 0)
      else rc.(drainLoss := n, drainIncrease := rc.drainIncrease + 1,
               phase := if (rc.drainIncrease + 1) % DRAIN_INCREASE_WINDOW == 0 then Probe else Drain)
    case Startup =>
      if Lossy(rc)
      then rc.(phase := Drain,
               window := if rc.window <= CONGESTION_WINDOW_MAX then rc.window - rc.window / 2 else rc.window)
      else rc.(window := Min(rc.window + rc.window / 3, CONGESTION_WINDOW_MAX))
    case Idle => rc
  }

  function AddAck(rc: Rc, msg: AckPacket): Rc
  {
    if Closes(msg) then Adjust(Account(rc, msg)) else Account(rc, msg)
  }

  class RateControl {
    var congestionWindow: int
    var state: Phase
    var lastIntervalBytes: int
    var lastIntervalPackets: int
    var lastPacketTxIndex: int
    var packetLossPercent: int
    var lastMissingSequenceNums: int
    var curNumMissingPackets: int
    var curNumCheckedPackets: int
    var lastNumMissingPackets: int
    var drainIncreaseCount: nat
    var drainLossCount: nat
    var probeIncreaseCount: nat

    ghost function View(): Rc
      reads this
    {
      Rc(congestionWindow, state, packetLossPercent, curNumMissingPackets, curNumCheckedPackets,
         lastNumMissingPackets, drainIncreaseCount, drainLossCount, probeIncreaseCount)
    }

    // The division in Add is defined, and the window stays in its range.
    ghost predicate Valid()
      reads this
    {
      1 <= congestionWindow <= CONGESTION_WINDOW_MAX
    }

    constructor ()
      ensures Valid() && View() == INITIAL
      ensures congestionWindow == 100 && state == Idle
      ensures lastIntervalPackets == 0
    {
      congestionWindow, state := START_CONGESTION_WINDOW, Idle;
      lastIntervalBytes, lastIntervalPackets, lastPacketTxIndex, packetLossPercent := 0, 0, 0, 0;
      lastMissingSequenceNums, curNumMissingPackets, curNumCheckedPackets, lastNumMissingPackets := 0, 0, 0, 0;
      drainIncreaseCount, drainLossCount, probeIncreaseCount := 0, 0, 0;
    }

    method Start()
      modifies this`state
      ensures View() == old(View()).(phase := Startup)
    {
      state := Startup;
    }

    method Stop()
      modifies this`state
      ensures View() == old(View()).(phase := Idle)
    {
      state := Idle;
    }

    // Counts sent packets; pauses says that the sender sleeps once now.
    method Add(numPackets: int, numBytes: int) returns (pauses: bool)
      requires Valid()
      modifies this`lastIntervalBytes, this`lastIntervalPackets
      ensures lastIntervalPackets == old(lastIntervalPackets) + numPackets && lastIntervalBytes == numBytes
      ensures pauses == (lastIntervalPackets % congestionWindow == 0)
    {
      lastIntervalBytes := numBytes;
      lastIntervalPackets := lastIntervalPackets + numPackets;
      pauses := lastIntervalPackets % congestionWindow == 0;
    }

    method AddAckMessage(msg: AckPacket)
      modifies this
      ensures View() == AddAck(old(View()), msg)
      ensures old(Valid()) ==> Valid()
      ensures lastPacketTxIndex == msg.requestSequenceId && lastIntervalBytes == lastIntervalPackets == 0
      ensures lastMissingSequenceNums == |msg.missingSequenceNumbers|
    {
      AccountMessage(msg);
      if msg.packetTxIndex >= msg.numPacketsPerTx - 1 {
        CloseEpoch();
      }
      lastMissingSequenceNums := |msg.missingSequenceNumbers|;
      lastPacketTxIndex := msg.requestSequenceId;
      lastIntervalBytes := 0;
      lastIntervalPackets := 0;
    }

    // The missing-packet totals and the loss percentage.
    method AccountMessage(msg: AckPacket)
      modifies this`curNumMissingPackets, this`packetLossPercent, this`lastNumMissingPackets, this`curNumCheckedPackets
      ensures View() == Account(old(View()), msg)
    {
      var sum := Sum(msg.missingSequenceNumberOffsets);
      curNumMissingPackets := curNumMissingPackets + sum;
      if msg.packetTxIndex >= msg.numPacketsPerTx - 1 {
        var missingPackets := curNumMissingPackets - lastNumMissingPackets;
        if msg.numPackets != curNumCheckedPackets {
          packetLossPercent := TruncDiv(missingPackets * 100, msg.numPackets - curNumCheckedPackets);
        }
        lastNumMissingPackets := curNumMissingPackets;
        curNumMissingPackets := 0;
        curNumCheckedPackets := msg.numPackets;
      }
    }

    // The switch over the state.
    method CloseEpoch()
      modifies this`congestionWindow, this`state, this`drainIncreaseCount, this`drainLossCount, this`probeIncreaseCount
      ensures View() == Adjust(old(View()))
      ensures old(Valid()) ==> Valid()
    {
      match state {
        case Probe =>
          if packetLossPercent >= PACKET_LOSS_THRESHOLD_PERCENT {
            congestionWindow := congestionWindow - congestionWindow / 4;
            state := Drain;
            probeIncreaseCount := 0;
          } else {
            probeIncreaseCount := probeIncreaseCount + 1;
            if probeIncreaseCount % DRAIN_INCREASE_WINDOW == 0 {
              congestionWindow := congestionWindow + congestionWindow / 5;
              if congestionWindow > CONGESTION_WINDOW_MAX {
                congestionWindow := CONGESTION_WINDOW_MAX;
              }
            }
          }
        case Drain =>
          drainLossCount := drainLossCount + 1;
          if drainLossCount > 1 && drainLossCount <= 5 {
            return;
          }
          if packetLossPercent >= PACKET_LOSS_THRESHOLD_PERCENT {
            congestionWindow := congestionWindow - congestionWindow / 3;
            drainIncreaseCount := 0;
          } else {
            drainIncreaseCount := drainIncreaseCount + 1;
            if drainIncreaseCount % DRAIN_INCREASE_WINDOW == 0 {
              state := Probe;
            }
          }
        case Startup =>
          if packetLossPercent >= PACKET_LOSS_THRESHOLD_PERCENT {
            state := Drain;
            if congestionWindow <= CONGESTION_WINDOW_MAX {
              congestionWindow := congestionWindow - congestionWindow / 2;
            }
          } else {
            congestionWindow := congestionWindow + congestionWindow / 3;
            if congestionWindow > CONGESTION_WINDOW_MAX {
              congestionWindow := CONGESTION_WINDOW_MAX;
            }
          }
        case Idle =>
      }
    }
  }
}
