// ReadPart as steps of the two-party system: both end alike
// (dataplane/dataplane.go:310-333, api/conn.go:47).
module ReadSteps {
  import opened Utils
  import opened Codec
  import opened GapLedger
  import opened Reassembly
  import opened Protocol
  import Completion

  // The datagrams that the receiver can read.
  predicate Readable(p: Params, s: State, datagram: seq<byte>)
    requires WellFormed(p)
  {
    datagram in s.data || IsForeign(p, datagram)
  }

  ghost predicate CanRead(p: Params, s: State)
    requires WellFormed(p)
  {
    && s.receiver.phase == Reading && |s.receiver.arrivals| + s.receiver.foreign < Count(p)
    && Parallel(s.receiver.reader.rx.ledger)
  }

  // A read step ends as the read of its datagram does.
  lemma ReadStepEndsAlike(p: Params, s: State, datagram: seq<byte>)
    requires WellFormed(p) && CanRead(p, s) && Readable(p, s, datagram)
    ensures var window, r, s' := Window(datagram, p.max), s.receiver, ReadStep(p, s, datagram);
            && (s'.receiver.phase == Blocked <==> StatusOfOne(r.reader, p.partId, p.pl, window) == ChannelFull)
            && (s'.receiver.phase == Dead <==> StatusOfOne(r.reader, p.partId, p.pl, window) == Panicked)
            && (s'.receiver.phase == Reading <==> StatusOfOne(r.reader, p.partId, p.pl, window) == ReadDone)
            && s' == s.(receiver := s'.receiver)
            && (s'.receiver.phase == Reading ==>
                  && s'.receiver.reader == ReadOne(r.reader, p.partId, p.pl, window)
                  && |s'.receiver.arrivals| + s'.receiver.foreign == |r.arrivals| + r.foreign + 1)
  {
  }

  // Datagram by datagram.
  function Reads(inbox: seq<seq<byte>>, n: nat): seq<Step>
    requires n <= |inbox|
  {
    if n == 0 then [] else [Read(inbox[0])] + Reads(inbox[1..], n - 1)
  }

  lemma {:induction false} HaltedStays(p: Params, s: State, steps: seq<Step>)
    requires WellFormed(p) && s.receiver.phase != Reading && forall k :: 0 <= k < |steps| ==> steps[k].Read?
    ensures RunFrom(p, s, steps) == s
  {
    if |steps| > 0 {
      HaltedStays(p, s, steps[..|steps| - 1]);
    }
  }

  lemma {:induction false} OnlyReads(inbox: seq<seq<byte>>, n: nat)
    requires n <= |inbox|
    ensures forall k :: 0 <= k < |Reads(inbox, n)| ==> Reads(inbox, n)[k].Read?
  {
    if n > 0 {
      OnlyReads(inbox[1..], n - 1);
    }
  }

  lemma FirstStep(p: Params, s: State, step: Step, rest: seq<Step>)
    requires WellFormed(p)
    ensures RunFrom(p, s, [step] + rest) == RunFrom(p, Next(p, s, step), rest)
  {
    Completion.RunFromConcat(p, s, [step], rest);
    Completion.RunFromOne(p, s, step);
  }

  // What n reads of the method and the same reads as steps have in common.
  ghost predicate Agree(p: Params, s: State, s': State, status: ReadStatus, reader: Reader, n: nat)
  {
    && s' == s.(receiver := s'.receiver)
    && (s'.receiver.phase == Blocked <==> status == ChannelFull)
    && (s'.receiver.phase == Dead <==> status == Panicked)
    && (s'.receiver.phase == Reading <==> status == ReadDone)
    && (status == ReadDone ==>
          && s'.receiver.reader == reader
          && |s'.receiver.arrivals| + s'.receiver.foreign == |s.receiver.arrivals| + s.receiver.foreign + n)
  }

  predicate AllZero(buffer: seq<byte>)
  {
    forall k :: 0 <= k < |buffer| ==> buffer[k] == 0
  }

  // The first read ends all of them, or leaves the others to the state s1 after it.
  lemma {:induction false} FirstReadAgrees(p: Params, s: State, buffer: seq<byte>, inbox: seq<seq<byte>>, n: nat, s1: State,
                        buffer1: seq<byte>, inbox1: seq<seq<byte>>, n1: nat)
    requires WellFormed(p) && CanRead(p, s) && 0 < n <= |inbox| && Readable(p, s, inbox[0])
    requires |buffer| == Room(n, p.max) && AllZero(buffer) && s1 == ReadStep(p, s, inbox[0])
    requires buffer1 == buffer[p.max..] && inbox1 == inbox[1..] && n1 == n - 1
    ensures s1 == s.(receiver := s1.receiver) && |buffer1| == Room(n1, p.max) && AllZero(buffer1)
    ensures RunFrom(p, s, Reads(inbox, n)) == RunFrom(p, s1, Reads(inbox1, n1))
    ensures var status, r := StatusOfMany(s.receiver.reader, p.partId, p.pl, buffer, inbox, p.max, n), s1.receiver;
            if r.phase == Reading then
              && Parallel(r.reader.rx.ledger)
              && |r.arrivals| + r.foreign == |s.receiver.arrivals| + s.receiver.foreign + 1
              && status == StatusOfMany(r.reader, p.partId, p.pl, buffer1, inbox1, p.max, n1)
              && ReadMany(s.receiver.reader, p.partId, p.pl, buffer, inbox, p.max, n)
                 == ReadMany(r.reader, p.partId, p.pl, buffer1, inbox1, p.max, n1)
            else status != ReadDone && (r.phase == Blocked <==> status == ChannelFull)
                 && (r.phase == Dead <==> status == Panicked)
  {
    assert buffer[..p.max] == Zeros(p.max);
    ReadStepEndsAlike(p, s, inbox[0]);
    FirstStep(p, s, Read(inbox[0]), Reads(inbox1, n1));
  }

  // The reads of ReadPart into its fresh buffer, and the same reads as steps: both
  // are done, block or panic alike, and keep the same.
  lemma {:induction false} ReadPartIsReadSteps(p: Params, s: State, buffer: seq<byte>, inbox: seq<seq<byte>>, n: nat)
    requires WellFormed(p) && s.receiver.phase == Reading && Parallel(s.receiver.reader.rx.ledger)
    requires |s.receiver.arrivals| + s.receiver.foreign + n <= Count(p)
    requires n <= |inbox| && |buffer| == Room(n, p.max) && AllZero(buffer)
    requires forall k :: 0 <= k < n ==> Readable(p, s, inbox[k])
    ensures Agree(p, s, RunFrom(p, s, Reads(inbox, n)),
                  StatusOfMany(s.receiver.reader, p.partId, p.pl, buffer, inbox, p.max, n),
                  ReadMany(s.receiver.reader, p.partId, p.pl, buffer, inbox, p.max, n), n)
    decreases n
  {
    if n > 0 {
      var s1, buffer1, inbox1, n1 := ReadStep(p, s, inbox[0]), buffer[p.max..], inbox[1..], n - 1;
      FirstReadAgrees(p, s, buffer, inbox, n, s1, buffer1, inbox1, n1);
      if s1.receiver.phase == Reading {
        ReadPartIsReadSteps(p, s1, buffer1, inbox1, n1);
      } else {
        OnlyReads(inbox1, n1);
        HaltedStays(p, s1, Reads(inbox1, n1));
      }
    }
  }

  // The datagram is foreign, or carries a number that no gap can absorb.
  predicate TurnsAway(p: Params, s: State, datagram: seq<byte>)
    requires WellFormed(p)
  {
    && Parallel(s.receiver.reader.rx.ledger)
    && var outcome := Deliver(s.receiver.reader.rx, p.partId, p.pl, Window(datagram, p.max)).outcome;
       outcome == MismatchingPartId || outcome == DuplicateRetransfer
  }

  // In every run a read blocks exactly when it turns a datagram away after 64
  // others: all that were read and not stored.
  lemma BlocksExactlyAtThe65th(p: Params, steps: seq<Step>, datagram: seq<byte>)
    requires WellFormed(p) && CanRead(p, After(p, steps)) && Readable(p, After(p, steps), datagram)
    ensures var s := After(p, steps);
            ReadStep(p, s, datagram).receiver.phase == Blocked <==>
              && TurnsAway(p, s, datagram)
              && |s.receiver.arrivals| + s.receiver.foreign - s.receiver.reader.recvPackets == 64
  {
    InvHolds(p, steps);
    ReadStepEndsAlike(p, After(p, steps), datagram);
  }
}
