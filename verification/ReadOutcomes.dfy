// How ReadPart ends and what it counts, told by what becomes of each datagram
// (dataplane/dataplane.go:310-333).
module ReadOutcomes {
  import opened Utils
  import opened Codec
  import opened GapLedger
  import opened Reassembly

  // What becomes of each of n reads, however the earlier ones ended; fewer when the
  // datagrams or the buffer run out.
  function Outcomes(r: Reader, partId: int, pl: int, buffer: seq<byte>, inbox: seq<seq<byte>>, max: nat,
                    n: nat): (o: seq<Outcome>)
    requires Parallel(r.rx.ledger) && max >= HEADER_LEN
    ensures |o| <= n && |o| <= |inbox|
    decreases n
  {
    if n == 0 || |buffer| < max || |inbox| == 0 then []
    else
      var window := Overlay(buffer[..max], inbox[0]);
      [Deliver(r.rx, partId, pl, window).outcome]
      + Outcomes(ReadOne(r, partId, pl, window), partId, pl, buffer[max..], inbox[1..], max, n - 1)
  }

  // The datagrams turned away: those of another part id, and those whose number no
  // gap can absorb.
  function TurnedAway(o: seq<Outcome>): (n: nat)
    ensures n <= |o|
  {
    if |o| == 0 then 0
    else TurnedAway(o[1..]) + if o[0] == MismatchingPartId || o[0] == DuplicateRetransfer then 1 else 0
  }

  function StoredCount(o: seq<Outcome>): nat
  {
    if |o| == 0 then 0 else StoredCount(o[1..]) + if o[0] == Stored then 1 else 0
  }

  // The lengths of the stored datagrams, cut to a window.
  function StoredBytes(o: seq<Outcome>, inbox: seq<seq<byte>>, max: nat): nat
    requires |o| <= |inbox|
  {
    if |o| == 0 then 0
    else StoredBytes(o[1..], inbox[1..], max) + if o[0] == Stored then Min(|inbox[0]|, max) else 0
  }

  // The windows that the datagrams turned away were read into.
  function TurnedBuffers(o: seq<Outcome>, buffer: seq<byte>, inbox: seq<seq<byte>>, max: nat): (b: seq<seq<byte>>)
    requires |o| <= |inbox|
    ensures |b| <= TurnedAway(o)
  {
    if |o| == 0 || |buffer| < max then []
    else FirstBuffer(o[0], buffer, inbox, max) + TurnedBuffers(o[1..], buffer[max..], inbox[1..], max)
  }

  function FirstBuffer(x: Outcome, buffer: seq<byte>, inbox: seq<seq<byte>>, max: nat): seq<seq<byte>>
    requires |buffer| >= max && |inbox| > 0
  {
    if x == MismatchingPartId || x == DuplicateRetransfer then [Overlay(buffer[..max], inbox[0])] else []
  }

  // Before any panic one datagram more is turned away than there is room for.
  ghost predicate Overflows(o: seq<Outcome>, room: nat)
  {
    exists k :: 0 <= k <= |o| && OverflowsBy(o, room, k)
  }

  ghost predicate OverflowsBy(o: seq<Outcome>, room: nat, k: nat)
    requires k <= |o|
  {
    TurnedAway(o[..k]) == room + 1 && SliceBoundsPanic !in o[..k]
  }

  // A slot is out of range while there is room for all that was turned away.
  ghost predicate RunsOut(o: seq<Outcome>, room: nat)
  {
    exists k :: 0 <= k < |o| && RunsOutAt(o, room, k)
  }

  ghost predicate RunsOutAt(o: seq<Outcome>, room: nat, k: nat)
    requires k < |o|
  {
    o[k] == SliceBoundsPanic && SliceBoundsPanic !in o[..k] && TurnedAway(o[..k]) <= room
  }

  predicate Passes(o: seq<Outcome>, room: nat)
  {
    SliceBoundsPanic !in o && TurnedAway(o) <= room
  }

  // How a run of reads ends by the outcomes, with room for so many in the channel.
  ghost predicate EndsAs(status: ReadStatus, o: seq<Outcome>, n: nat, room: nat)
  {
    && (status == ChannelFull <==> Overflows(o, room))
    && (status == Panicked <==> RunsOut(o, room))
    && (status == ReadFailed <==> Passes(o, room) && |o| < n)
    && (status == ReadDone <==> Passes(o, room) && |o| >= n)
  }

  // One outcome in front of others. next: the room after it.
  lemma OneMore(x: Outcome, rest: seq<Outcome>, room: nat, next: nat, o: seq<Outcome>)
    requires o == [x] + rest && x != SliceBoundsPanic
    requires if x == Stored then next == room else next == room - 1
    ensures Overflows(o, room) <==> Overflows(rest, next)
    ensures RunsOut(o, room) <==> RunsOut(rest, next)
    ensures Passes(o, room) <==> Passes(rest, next)
  {
    assert o[1..] == rest;
    forall k | 0 <= k <= |rest|
      ensures o[..k + 1] == [x] + rest[..k] && (OverflowsBy(o, room, k + 1) <==> OverflowsBy(rest, next, k))
    {
      OneMoreTurned(x, rest, k, o);
    }
    assert !OverflowsBy(o, room, 0);
    if Overflows(o, room) {
      var k :| 0 <= k <= |o| && OverflowsBy(o, room, k);
      assert OverflowsBy(rest, next, k - 1);
    }
    if Overflows(rest, next) {
      var k :| 0 <= k <= |rest| && OverflowsBy(rest, next, k);
      assert OverflowsBy(o, room, k + 1);
    }
    OneMoreRunsOut(x, rest, room, next, o);
  }

  lemma OneMoreTurned(x: Outcome, rest: seq<Outcome>, k: nat, o: seq<Outcome>)
    requires o == [x] + rest && k <= |rest|
    ensures o[..k + 1] == [x] + rest[..k]
    ensures TurnedAway(o[..k + 1])
         == TurnedAway(rest[..k]) + if x == MismatchingPartId || x == DuplicateRetransfer then 1 else 0
  {
    assert o[..k + 1][1..] == rest[..k];
  }

  lemma OneMoreRunsOut(x: Outcome, rest: seq<Outcome>, room: nat, next: nat, o: seq<Outcome>)
    requires o == [x] + rest && x != SliceBoundsPanic
    requires if x == Stored then next == room else next == room - 1
    ensures RunsOut(o, room) <==> RunsOut(rest, next)
  {
    forall k | 0 <= k < |rest| ensures RunsOutAt(o, room, k + 1) <==> RunsOutAt(rest, next, k) {
      OneMoreTurned(x, rest, k, o);
      assert o[k + 1] == rest[k];
    }
    if RunsOut(o, room) {
      var k :| 0 <= k < |o| && RunsOutAt(o, room, k);
      assert RunsOutAt(rest, next, k - 1);
    }
    if RunsOut(rest, next) {
      var k :| 0 <= k < |rest| && RunsOutAt(rest, next, k);
      assert RunsOutAt(o, room, k + 1);
    }
  }

  // A datagram turned away with no room left ends the reads.
  lemma FullAtOnce(x: Outcome, rest: seq<Outcome>, o: seq<Outcome>)
    requires o == [x] + rest && (x == MismatchingPartId || x == DuplicateRetransfer)
    ensures Overflows(o, 0) && !RunsOut(o, 0) && !Passes(o, 0)
  {
    OneMoreTurned(x, rest, 0, o);
    assert OverflowsBy(o, 0, 1);
    forall k | 0 <= k < |o| ensures !RunsOutAt(o, 0, k) {
      if k > 0 {
        OneMoreTurned(x, rest, k - 1, o);
      }
    }
  }

  lemma PanicAtOnce(rest: seq<Outcome>, room: nat, o: seq<Outcome>)
    requires o == [SliceBoundsPanic] + rest
    ensures RunsOut(o, room) && !Overflows(o, room) && !Passes(o, room)
  {
    assert RunsOutAt(o, room, 0);
    forall k | 0 <= k <= |o| ensures !OverflowsBy(o, room, k) {
      if k > 0 {
        assert o[..k][0] == SliceBoundsPanic;
      }
    }
  }

  lemma NothingRead(n: nat, room: nat)
    ensures EndsAs(if n == 0 then ReadDone else ReadFailed, [], n, room)
  {
    assert !OverflowsBy([], room, 0);
  }

  // The status of a run by that of its rest. next: the room after the first read.
  lemma EndsOneEarlier(x: Outcome, rest: seq<Outcome>, status: ReadStatus, later: ReadStatus, n: nat, room: nat,
                       next: nat, o: seq<Outcome>)
    requires o == [x] + rest && n > 0
    requires if x == SliceBoundsPanic then status == Panicked
             else if x == Stored then status == later && next == room && EndsAs(later, rest, n - 1, next)
             else if room == 0 then status == ChannelFull
             else status == later && next == room - 1 && EndsAs(later, rest, n - 1, next)
    ensures EndsAs(status, o, n, room)
  {
    if x == SliceBoundsPanic {
      PanicAtOnce(rest, room, o);
    } else if x != Stored && room == 0 {
      FullAtOnce(x, rest, o);
    } else {
      OneMore(x, rest, room, next, o);
    }
  }

  // How a run with these outcomes ends.
  function StatusFrom(o: seq<Outcome>, n: nat, room: nat): ReadStatus
    requires |o| <= n
  {
    if |o| == 0 then if n == 0 then ReadDone else ReadFailed
    else if o[0] == SliceBoundsPanic then Panicked
    else if o[0] == Stored then StatusFrom(o[1..], n - 1, room)
    else if room == 0 then ChannelFull
    else StatusFrom(o[1..], n - 1, room - 1)
  }

  lemma {:induction false} StatusFromEnds(o: seq<Outcome>, n: nat, room: nat)
    requires |o| <= n
    ensures EndsAs(StatusFrom(o, n, room), o, n, room)
  {
    if |o| == 0 {
      NothingRead(n, room);
    } else {
      var x, rest := o[0], o[1..];
      var status := StatusFrom(o, n, room);
      assert o == [x] + rest;
      if x == SliceBoundsPanic || (x != Stored && room == 0) {
        EndsOneEarlier(x, rest, status, status, n, room, 0, o);
      } else {
        var next := if x == Stored then room else room - 1;
        StatusFromEnds(rest, n - 1, next);
        EndsOneEarlier(x, rest, status, StatusFrom(rest, n - 1, next), n, room, next, o);
      }
    }
  }

  // The first of some reads, and what it leaves to the others.
  lemma FirstRead(r: Reader, partId: int, pl: int, buffer: seq<byte>, inbox: seq<seq<byte>>, max: nat, n: nat)
    returns (x: Outcome, next: Reader, buffer': seq<byte>, inbox': seq<seq<byte>>, n': nat)
    requires Parallel(r.rx.ledger) && max >= HEADER_LEN && n > 0 && |buffer| >= max && |inbox| > 0
    ensures Parallel(next.rx.ledger) && buffer' == buffer[max..] && inbox' == inbox[1..] && n' == n - 1
    ensures Outcomes(r, partId, pl, buffer, inbox, max, n)
         == [x] + Outcomes(next, partId, pl, buffer', inbox', max, n')
    ensures StatusOfMany(r, partId, pl, buffer, inbox, max, n)
         == if x == SliceBoundsPanic then Panicked
            else if x != Stored && |r.rejected| >= 64 then ChannelFull
            else StatusOfMany(next, partId, pl, buffer', inbox', max, n')
    ensures ReadMany(r, partId, pl, buffer, inbox, max, n) == ReadMany(next, partId, pl, buffer', inbox', max, n')
    ensures CountedByMany(r, partId, pl, buffer, inbox, max, n)
         == CountedByMany(next, partId, pl, buffer', inbox', max, n') + if x == Stored then Min(|inbox[0]|, max) else 0
    ensures next.recvPackets == r.recvPackets + if x == Stored then 1 else 0
    ensures next.rejected == r.rejected + FirstBuffer(x, buffer, inbox, max)
  {
    var window := Overlay(buffer[..max], inbox[0]);
    x, next := Deliver(r.rx, partId, pl, window).outcome, ReadOne(r, partId, pl, window);
    buffer', inbox', n' := buffer[max..], inbox[1..], n - 1;
  }

  lemma {:induction false} StatusOfOutcomes(r: Reader, partId: int, pl: int, buffer: seq<byte>, inbox: seq<seq<byte>>,
                                            max: nat, n: nat)
    requires Parallel(r.rx.ledger) && max >= HEADER_LEN && |r.rejected| <= 64
    ensures StatusOfMany(r, partId, pl, buffer, inbox, max, n)
         == StatusFrom(Outcomes(r, partId, pl, buffer, inbox, max, n), n, 64 - |r.rejected|)
    decreases n
  {
    if n > 0 && |buffer| >= max && |inbox| > 0 {
      var x, next, buffer', inbox', n' := FirstRead(r, partId, pl, buffer, inbox, max, n);
      var o := Outcomes(r, partId, pl, buffer, inbox, max, n);
      var rest := Outcomes(next, partId, pl, buffer', inbox', max, n');
      var status := StatusOfMany(r, partId, pl, buffer, inbox, max, n);
      if x == SliceBoundsPanic || (x != Stored && |r.rejected| == 64) {
        EndsNow(x, rest, n, 64 - |r.rejected|, status, o);
      } else {
        StatusOfOutcomes(next, partId, pl, buffer', inbox', max, n');
        EndsLater(x, rest, n, 64 - |r.rejected|, 64 - |next.rejected|, status, o);
      }
    }
  }

  lemma EndsNow(x: Outcome, rest: seq<Outcome>, n: nat, room: nat, status: ReadStatus, o: seq<Outcome>)
    requires n > 0 && |rest| <= n - 1 && o == [x] + rest
    requires x == SliceBoundsPanic || (x != Stored && room == 0)
    requires status == if x == SliceBoundsPanic then Panicked else ChannelFull
    ensures status == StatusFrom(o, n, room)
  {
  }

  lemma EndsLater(x: Outcome, rest: seq<Outcome>, n: nat, room: nat, next: nat, status: ReadStatus, o: seq<Outcome>)
    requires n > 0 && |rest| <= n - 1 && o == [x] + rest && x != SliceBoundsPanic
    requires next == if x == Stored then room else room - 1
    requires status == StatusFrom(rest, n - 1, next)
    ensures status == StatusFrom(o, n, room)
  {
    assert o[1..] == rest;
  }

  // ReadPart blocks exactly when, before a slot is out of range, the 65th datagram
  // is turned away; it panics exactly at the first such slot before that; otherwise
  // it fails or is done by the number of datagrams.
  lemma StatusByOutcomes(r: Reader, partId: int, pl: int, buffer: seq<byte>, inbox: seq<seq<byte>>, max: nat, n: nat)
    requires Parallel(r.rx.ledger) && max >= HEADER_LEN && |r.rejected| <= 64
    ensures EndsAs(StatusOfMany(r, partId, pl, buffer, inbox, max, n),
                   Outcomes(r, partId, pl, buffer, inbox, max, n), n, 64 - |r.rejected|)
  {
    StatusOfOutcomes(r, partId, pl, buffer, inbox, max, n);
    StatusFromEnds(Outcomes(r, partId, pl, buffer, inbox, max, n), n, 64 - |r.rejected|);
  }

  // RecvPackets counts the stored datagrams.
  lemma {:induction false} StoredByOutcomes(r: Reader, partId: int, pl: int, buffer: seq<byte>, inbox: seq<seq<byte>>,
                                    max: nat, n: nat)
    requires Parallel(r.rx.ledger) && max >= HEADER_LEN
    ensures ReadMany(r, partId, pl, buffer, inbox, max, n).recvPackets
         == r.recvPackets + StoredCount(Outcomes(r, partId, pl, buffer, inbox, max, n))
    decreases n
  {
    if n > 0 && |buffer| >= max && |inbox| > 0 {
      var x, next, buffer', inbox', n' := FirstRead(r, partId, pl, buffer, inbox, max, n);
      StoredByOutcomes(next, partId, pl, buffer', inbox', max, n');
      assert ([x] + Outcomes(next, partId, pl, buffer', inbox', max, n'))[1..]
          == Outcomes(next, partId, pl, buffer', inbox', max, n');
    }
  }

  // The channel receives the buffers of those turned away, in order.
  lemma {:induction false} RejectedByOutcomes(r: Reader, partId: int, pl: int, buffer: seq<byte>, inbox: seq<seq<byte>>,
                                    max: nat, n: nat)
    requires Parallel(r.rx.ledger) && max >= HEADER_LEN
    ensures ReadMany(r, partId, pl, buffer, inbox, max, n).rejected
         == r.rejected + TurnedBuffers(Outcomes(r, partId, pl, buffer, inbox, max, n), buffer, inbox, max)
    decreases n
  {
    if n > 0 && |buffer| >= max && |inbox| > 0 {
      var x, next, buffer', inbox', n' := FirstRead(r, partId, pl, buffer, inbox, max, n);
      RejectedByOutcomes(next, partId, pl, buffer', inbox', max, n');
      var rest := Outcomes(next, partId, pl, buffer', inbox', max, n');
      OneMoreBuffer(r.rejected, x, rest, buffer, inbox, max, next.rejected);
    }
  }

  lemma OneMoreBuffer(before: seq<seq<byte>>, x: Outcome, rest: seq<Outcome>, buffer: seq<byte>, inbox: seq<seq<byte>>,
                      max: nat, after: seq<seq<byte>>)
    requires |buffer| >= max && |rest| < |inbox| && after == before + FirstBuffer(x, buffer, inbox, max)
    ensures after + TurnedBuffers(rest, buffer[max..], inbox[1..], max)
         == before + TurnedBuffers([x] + rest, buffer, inbox, max)
  {
    assert ([x] + rest)[1..] == rest;
    AddsUp(before, FirstBuffer(x, buffer, inbox, max), TurnedBuffers(rest, buffer[max..], inbox[1..], max));
  }

  // ReadPart's count is the bytes of the stored datagrams.
  lemma {:induction false} BytesByOutcomes(r: Reader, partId: int, pl: int, buffer: seq<byte>, inbox: seq<seq<byte>>,
                                    max: nat, n: nat)
    requires Parallel(r.rx.ledger) && max >= HEADER_LEN
    ensures CountedByMany(r, partId, pl, buffer, inbox, max, n)
         == StoredBytes(Outcomes(r, partId, pl, buffer, inbox, max, n), inbox, max)
    decreases n
  {
    if n > 0 && |buffer| >= max && |inbox| > 0 {
      var x, next, buffer', inbox', n' := FirstRead(r, partId, pl, buffer, inbox, max, n);
      BytesByOutcomes(next, partId, pl, buffer', inbox', max, n');
      assert ([x] + Outcomes(next, partId, pl, buffer', inbox', max, n'))[1..]
          == Outcomes(next, partId, pl, buffer', inbox', max, n');
    }
  }

  // The three of them, and the end, for one run of reads.
  ghost predicate Explains(o: seq<Outcome>, before: Reader, after: Reader, buffer: seq<byte>, inbox: seq<seq<byte>>,
                           max: nat, counted: nat)
    requires |o| <= |inbox|
  {
    && counted == StoredBytes(o, inbox, max)
    && after.recvPackets == before.recvPackets + StoredCount(o)
    && after.rejected == before.rejected + TurnedBuffers(o, buffer, inbox, max)
  }

  lemma ReadsByOutcomes(r: Reader, partId: int, pl: int, buffer: seq<byte>, inbox: seq<seq<byte>>, max: nat, n: nat)
    requires Parallel(r.rx.ledger) && max >= HEADER_LEN
    ensures var o := Outcomes(r, partId, pl, buffer, inbox, max, n);
            && (|r.rejected| <= 64 ==>
                  EndsAs(StatusOfMany(r, partId, pl, buffer, inbox, max, n), o, n, 64 - |r.rejected|))
            && Explains(o, r, ReadMany(r, partId, pl, buffer, inbox, max, n), buffer, inbox, max,
                        CountedByMany(r, partId, pl, buffer, inbox, max, n))
  {
    if |r.rejected| <= 64 {
      StatusByOutcomes(r, partId, pl, buffer, inbox, max, n);
    }
    StoredByOutcomes(r, partId, pl, buffer, inbox, max, n);
    RejectedByOutcomes(r, partId, pl, buffer, inbox, max, n);
    BytesByOutcomes(r, partId, pl, buffer, inbox, max, n);
  }
}
