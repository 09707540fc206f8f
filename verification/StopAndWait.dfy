// Single packets from one side to the other over a network that loses, repeats,
// delays and reorders them: WriteSingle against ReadSingle
// (dataplane/dataplane.go:228-249, dataplane/dataplane.go:271-308).
module StopAndWait {
  import opened Codec
  import opened Reassembly
  import opened Dataplane

  // ToSend, Waiting: inside WriteSingle, before its write and before its read.
  datatype Phase = Idle | ToSend | Waiting

  // started: the messages passed to WriteSingle so far, by part id; current is
  // the last id taken. finished: the ids for which WriteSingle returned without
  // an error. data, replies: everything written in each direction. delivered:
  // the buffers that ReadSingle has filled, and handed to its caller from byte 8
  // on.
  datatype State = State(phase: Phase, current: int, started: map<int, seq<byte>>, finished: set<int>,
                         data: set<seq<byte>>, replies: set<seq<byte>>, delivered: seq<seq<byte>>)

  // Ids only grow: handshakes and parts take some in between. ReadSingle's reply
  // may fail after the message has been handed over.
  datatype Step =
    | StartWrite(id: int, message: seq<byte>)
    | Send
    | ReadReply(reply: seq<byte>)
    | WriteFails
    | ReadMessage(datagram: seq<byte>, replied: bool)

  const INIT := State(Idle, 0, map[], {}, {}, {}, [])

  function Next(s: State, step: Step): State
  {
    match step
    case StartWrite(id, message) =>
      if s.phase == Idle && |message| < PACKET_PAYLOAD_SIZE && id > s.current && IsInt64(id)
      then s.(phase := ToSend, current := id, started := s.started[id := message])
      else s
    case Send =>
      if s.phase == ToSend && s.current in s.started && IsInt64(s.current)
      then s.(phase := Waiting, data := s.data + {SingleMessage(s.current, s.started[s.current])})
      else s
    case ReadReply(reply) =>
      if s.phase != Waiting || reply !in s.replies then s
      else if AckId(reply) == s.current then s.(phase := Idle, finished := s.finished + {s.current})
      else s.(phase := ToSend)
    case WriteFails =>
      s.(phase := Idle)
    case ReadMessage(datagram, replied) =>
      if datagram !in s.data then s
      else
        var buffer := SingleBuffer(datagram);
        s.(delivered := s.delivered + [buffer], replies := if replied then s.replies + {buffer} else s.replies)
  }

  function Run(steps: seq<Step>): State
  {
    if |steps| == 0 then INIT else Next(Run(steps[..|steps| - 1]), steps[|steps| - 1])
  }

  // -------------------------------------------------------------- messages

  // A reply carries the id of the message that it answers.
  lemma ReplyNamesMessage(id: int, message: seq<byte>)
    requires IsInt64(id)
    ensures AckId(SingleBuffer(SingleMessage(id, message))) == id
  {
    var buffer := SingleBuffer(SingleMessage(id, message));
    assert buffer[..8] == Put64(id);
    assert Overlay(Zeros(8), buffer) == Put64(id);
    GetPut64(id);
  }

  // What the reader's caller finds is the message.
  lemma BufferHoldsMessage(id: int, message: seq<byte>)
    requires IsInt64(id) && |message| <= 1392
    ensures SingleBuffer(SingleMessage(id, message))[8..8 + |message|] == message
  {
  }

  // ------------------------------------------------------------- invariant

  // The datagram is the message that was started under this id.
  ghost predicate IsMessage(s: State, id: int, datagram: seq<byte>)
  {
    id in s.started && IsInt64(id) && datagram == SingleMessage(id, s.started[id])
  }

  ghost predicate WasStarted(s: State, datagram: seq<byte>)
  {
    exists id :: IsMessage(s, id, datagram)
  }

  ghost predicate Answers(s: State, buffer: seq<byte>)
  {
    exists datagram :: WasStarted(s, datagram) && buffer == SingleBuffer(datagram)
  }

  // The message started under this id has been handed to the reader's caller.
  ghost predicate Delivered(s: State, id: int)
  {
    id in s.started && IsInt64(id) && SingleBuffer(SingleMessage(id, s.started[id])) in s.delivered
  }

  ghost predicate Inv(s: State)
  {
    && (s.phase != Idle ==> s.current in s.started && IsInt64(s.current))
    && (forall id :: id in s.started ==> id <= s.current && |s.started[id]| < PACKET_PAYLOAD_SIZE)
    && (forall d :: d in s.data ==> WasStarted(s, d))
    && (forall b :: b in s.delivered ==> Answers(s, b))
    && (forall b :: b in s.replies ==> b in s.delivered)
    && (forall id :: id in s.finished ==> Delivered(s, id))
  }

  // r knows every message of s under the same id.
  ghost predicate Knows(r: State, s: State)
  {
    forall id :: id in s.started ==> id in r.started && r.started[id] == s.started[id]
  }

  lemma LaterKnows(s: State, r: State, datagram: seq<byte>)
    requires WasStarted(s, datagram) && Knows(r, s)
    ensures WasStarted(r, datagram)
  {
    var id :| IsMessage(s, id, datagram);
    assert IsMessage(r, id, datagram);
  }

  // What the invariant says of the past stays true.
  lemma PastStays(s: State, r: State)
    requires Inv(s) && Knows(r, s) && forall b :: b in s.delivered ==> b in r.delivered
    ensures forall d :: d in s.data ==> WasStarted(r, d)
    ensures forall b :: b in s.delivered ==> Answers(r, b)
    ensures forall id :: id in s.finished ==> Delivered(r, id)
  {
    forall d | d in s.data ensures WasStarted(r, d) {
      LaterKnows(s, r, d);
    }
    forall b | b in s.delivered ensures Answers(r, b) {
      assert Answers(s, b);
      var d :| WasStarted(s, d) && b == SingleBuffer(d);
      LaterKnows(s, r, d);
    }
    forall id | id in s.finished ensures Delivered(r, id) {
      assert Delivered(s, id);
    }
  }

  lemma StartKeepsInv(s: State, id: int, message: seq<byte>)
    requires Inv(s)
    ensures Inv(Next(s, StartWrite(id, message)))
  {
    PastStays(s, Next(s, StartWrite(id, message)));
  }

  lemma SendKeepsInv(s: State)
    requires Inv(s)
    ensures Inv(Next(s, Send))
  {
    var r := Next(s, Send);
    PastStays(s, r);
    if s.phase == ToSend {
      assert IsMessage(r, s.current, SingleMessage(s.current, s.started[s.current]));
    }
  }

  lemma ReadMessageKeepsInv(s: State, datagram: seq<byte>, replied: bool)
    requires Inv(s)
    ensures Inv(Next(s, ReadMessage(datagram, replied)))
  {
    var r := Next(s, ReadMessage(datagram, replied));
    if datagram in s.data {
      assert r.delivered[|s.delivered|] == SingleBuffer(datagram);
      assert forall b :: b in s.delivered ==> b in r.delivered;
      PastStays(s, r);
      LaterKnows(s, r, datagram);
      assert Answers(r, SingleBuffer(datagram));
    }
  }

  // Ids strictly increase, so a reply with the current id answers the current
  // message, which has therefore been delivered.
  lemma MatchingReplyMeansDelivered(s: State, reply: seq<byte>)
    requires Inv(s) && reply in s.replies && AckId(reply) == s.current
    ensures Delivered(s, s.current)
  {
    assert Answers(s, reply);
    var d :| WasStarted(s, d) && reply == SingleBuffer(d);
    var id :| IsMessage(s, id, d);
    ReplyNamesMessage(id, s.started[id]);
  }

  lemma ReadReplyKeepsInv(s: State, reply: seq<byte>)
    requires Inv(s)
    ensures Inv(Next(s, ReadReply(reply)))
  {
    var r := Next(s, ReadReply(reply));
    PastStays(s, r);
    if s.phase == Waiting && reply in s.replies && AckId(reply) == s.current {
      MatchingReplyMeansDelivered(s, reply);
      assert Delivered(r, s.current);
    }
  }

  lemma WriteFailsKeepsInv(s: State)
    requires Inv(s)
    ensures Inv(Next(s, WriteFails))
  {
    PastStays(s, Next(s, WriteFails));
  }

  lemma {:induction false} InvHolds(steps: seq<Step>)
    ensures Inv(Run(steps))
  {
    if |steps| > 0 {
      var s := Run(steps[..|steps| - 1]);
      InvHolds(steps[..|steps| - 1]);
      match steps[|steps| - 1]
      case StartWrite(id, message) => StartKeepsInv(s, id, message);
      case Send => SendKeepsInv(s);
      case ReadReply(reply) => ReadReplyKeepsInv(s, reply);
      case WriteFails => WriteFailsKeepsInv(s);
      case ReadMessage(datagram, replied) => ReadMessageKeepsInv(s, datagram, replied);
    }
  }

  // -------------------------------------------------------------- theorems

  // In every run, whenever WriteSingle has returned without an error for a
  // message, ReadSingle has delivered that message's bytes.
  lemma FinishedMeansDelivered(steps: seq<Step>, id: int)
    requires id in Run(steps).finished
    ensures var s := Run(steps);
            && id in s.started && |s.started[id]| < 1200
            && (forall k :: 0 <= k < |s.delivered| ==> |s.delivered[k]| == 1400)
            && exists k :: 0 <= k < |s.delivered| && s.delivered[k][8..8 + |s.started[id]|] == s.started[id]
  {
    InvHolds(steps);
    var s := Run(steps);
    forall k | 0 <= k < |s.delivered| ensures |s.delivered[k]| == 1400 {
      assert Answers(s, s.delivered[k]);
    }
    assert Delivered(s, id);
    BufferHoldsMessage(id, s.started[id]);
    var k :| 0 <= k < |s.delivered| && s.delivered[k] == SingleBuffer(SingleMessage(id, s.started[id]));
  }

  // Nothing is delivered that was not written; the id in its first eight bytes
  // determines the rest, so all deliveries of one id are equal.
  lemma DeliveredWasWritten(steps: seq<Step>, k: nat)
    requires k < |Run(steps).delivered|
    ensures var s := Run(steps);
            var id := AckId(s.delivered[k]);
            id in s.started && IsInt64(id) && s.delivered[k] == SingleBuffer(SingleMessage(id, s.started[id]))
  {
    InvHolds(steps);
    var s := Run(steps);
    assert Answers(s, s.delivered[k]);
    var d :| WasStarted(s, d) && s.delivered[k] == SingleBuffer(d);
    var id :| IsMessage(s, id, d);
    ReplyNamesMessage(id, s.started[id]);
  }

  lemma OneIdOneMessage(steps: seq<Step>, j: nat, k: nat)
    requires j < |Run(steps).delivered| && k < |Run(steps).delivered|
    ensures var delivered := Run(steps).delivered;
            AckId(delivered[j]) == AckId(delivered[k]) <==> delivered[j] == delivered[k]
  {
    DeliveredWasWritten(steps, j);
    DeliveredWasWritten(steps, k);
  }

  // ----------------------------------------------------------------- order

  // Message id was handed over before the delivery at place m.
  ghost predicate DeliveredBefore(s: State, id: int, m: int)
    requires m <= |s.delivered|
  {
    exists k :: 0 <= k < m && AckId(s.delivered[k]) == id
  }

  // Every delivery of a later message comes after one of each finished message.
  ghost predicate InOrder(s: State)
  {
    forall id, m :: id in s.finished && 0 <= m < |s.delivered| && AckId(s.delivered[m]) > id ==>
                      DeliveredBefore(s, id, m)
  }

  // No delivery carries an id beyond the current one.
  lemma DeliveredUpToCurrent(s: State, m: nat)
    requires Inv(s) && m < |s.delivered|
    ensures AckId(s.delivered[m]) <= s.current
  {
    assert Answers(s, s.delivered[m]);
    var d :| WasStarted(s, d) && s.delivered[m] == SingleBuffer(d);
    var id :| IsMessage(s, id, d);
    ReplyNamesMessage(id, s.started[id]);
  }

  lemma FinishedIsDelivered(s: State, id: int)
    requires Inv(s) && id in s.finished
    ensures DeliveredBefore(s, id, |s.delivered|)
  {
    assert Delivered(s, id);
    ReplyNamesMessage(id, s.started[id]);
    var k :| 0 <= k < |s.delivered| && s.delivered[k] == SingleBuffer(SingleMessage(id, s.started[id]));
  }

  lemma StepKeepsOrder(s: State, step: Step)
    requires Inv(s) && InOrder(s)
    ensures InOrder(Next(s, step))
  {
    var r := Next(s, step);
    forall id, m | id in r.finished && 0 <= m < |r.delivered| && AckId(r.delivered[m]) > id
      ensures DeliveredBefore(r, id, m)
    {
      if m == |s.delivered| {
        FinishedIsDelivered(s, id);
        var k :| 0 <= k < m && AckId(s.delivered[k]) == id;
        assert r.delivered[k] == s.delivered[k];
      } else {
        assert r.delivered[m] == s.delivered[m];
        DeliveredUpToCurrent(s, m);
        assert id in s.finished;
        assert DeliveredBefore(s, id, m);
        var k :| 0 <= k < m && AckId(s.delivered[k]) == id;
        assert r.delivered[k] == s.delivered[k];
      }
    }
  }

  // First deliveries come in the order of the writes: whenever WriteSingle has
  // returned without an error for message id, any delivery of a later message, by
  // now or at any time after, follows a delivery of message id.
  lemma {:induction false} DeliveredInOrder(steps: seq<Step>)
    ensures InOrder(Run(steps))
  {
    if |steps| > 0 {
      DeliveredInOrder(steps[..|steps| - 1]);
      InvHolds(steps[..|steps| - 1]);
      StepKeepsOrder(Run(steps[..|steps| - 1]), steps[|steps| - 1]);
    }
  }

  // How often a message was handed to the reader's caller, by the id in its
  // first eight bytes.
  function Deliveries(delivered: seq<seq<byte>>, id: int): nat
  {
    if |delivered| == 0 then 0
    else
      var n := |delivered| - 1;
      Deliveries(delivered[..n], id) + if AckId(delivered[n]) == id then 1 else 0
  }

  lemma OneDeliveryMore(delivered: seq<seq<byte>>, buffer: seq<byte>, id: int)
    ensures Deliveries(delivered + [buffer], id) == Deliveries(delivered, id) + if AckId(buffer) == id then 1 else 0
  {
    assert (delivered + [buffer])[..|delivered|] == delivered;
  }

  // How often ReadSingle read the datagram of message id from the network.
  function Reads(steps: seq<Step>, id: int): nat
  {
    if |steps| == 0 then 0
    else
      var p, step := steps[..|steps| - 1], steps[|steps| - 1];
      Reads(p, id) + if ReadsId(Run(p), step, id) then 1 else 0
  }

  predicate ReadsId(s: State, step: Step, id: int)
  {
    && step.ReadMessage? && step.datagram in s.data
    && id in s.started && IsInt64(id) && step.datagram == SingleMessage(id, s.started[id])
  }

  // A message is delivered exactly as often as its datagram is read, so more
  // than once exactly when the network or a second send repeats it.
  lemma {:induction false} DeliveredAsOftenAsRead(steps: seq<Step>, id: int)
    ensures Deliveries(Run(steps).delivered, id) == Reads(steps, id)
  {
    if |steps| > 0 {
      DeliveredAsOftenAsRead(steps[..|steps| - 1], id);
      InvHolds(steps[..|steps| - 1]);
      StepDelivers(Run(steps[..|steps| - 1]), steps[|steps| - 1], id);
    }
  }

  lemma StepDelivers(s: State, step: Step, id: int)
    requires Inv(s)
    ensures Deliveries(Next(s, step).delivered, id)
         == Deliveries(s.delivered, id) + if ReadsId(s, step, id) then 1 else 0
  {
    if step.ReadMessage? && step.datagram in s.data {
      OneDeliveryMore(s.delivered, SingleBuffer(step.datagram), id);
      var i :| IsMessage(s, i, step.datagram);
      ReplyNamesMessage(i, s.started[i]);
      if ReadsId(s, step, id) {
        ReplyNamesMessage(id, s.started[id]);
      }
    }
  }

  // At least once, not exactly once: with the first reply lost, one finished
  // write is delivered twice.
  lemma DeliveredTwice(id: int, message: seq<byte>) returns (steps: seq<Step>)
    requires |message| < 1200 && id >= 1 && IsInt64(id)
    ensures var s := Run(steps);
            && s.finished == {id} && s.started == map[id := message]
            && |s.delivered| == 2 && s.delivered[0] == s.delivered[1]
  {
    var d := SingleMessage(id, message);
    var b := SingleBuffer(d);
    ReplyNamesMessage(id, message);
    var step1, step4, step5 := StartWrite(id, message), ReadMessage(d, true), ReadReply(b);
    var s1, s2, s3 := [step1], [step1, Send], [step1, Send, ReadMessage(d, false)];
    var s4, s5 := s3 + [step4], s3 + [step4, step5];
    assert s1[..0] == [] && s2[..1] == s1 && s3[..2] == s2 && s4[..3] == s3 && s5[..4] == s4;
    var started := map[id := message];
    assert Run(s1) == State(ToSend, id, started, {}, {}, {}, []);
    assert Run(s2) == State(Waiting, id, started, {}, {d}, {}, []);
    assert Run(s3) == State(Waiting, id, started, {}, {d}, {}, [b]);
    assert Run(s4) == State(Waiting, id, started, {}, {d}, {b}, [b, b]);
    steps := s5;
  }
}
