// The receiver's run-length record of missing packets, as a value
// (dataplane/partcontext.go:113-190 without the payload copy).
module GapLedger {
  import opened Utils

  // HighestSequenceNumber, MissingSequenceNums, MissingSequenceNumOffsets
  datatype Ledger = Ledger(highest: int, nums: seq<int>, offs: seq<int>)

  const FRESH := Ledger(0, [], [])

  predicate Parallel(l: Ledger)
  {
    |l.nums| == |l.offs|
  }

  // "Duplicate Retransfer": an old number that no entry can absorb.
  predicate Rejects(l: Ledger, s: int)
  {
    s - l.highest < 0 && FirstHit(s, l.nums, 0) < 0
  }

  // A number beyond the next expected one records the skipped stretch.
  function OpenGap(l: Ledger, s: int): (r: Ledger)
    requires Parallel(l)
    ensures Parallel(r)
  {
    var diff := s - l.highest;
    if s - (diff - 1) in l.nums then Ledger(s, l.nums, l.offs)
    else Ledger(s, l.nums + [s - (diff - 1)], l.offs + [diff - 1])
  }

  // An old number counts entry k down, and removes it at zero.
  function FillGap(l: Ledger, k: nat): (r: Ledger)
    requires Parallel(l) && k < |l.nums|
    ensures Parallel(r)
  {
    var o := l.offs[k := l.offs[k] - 1];
    if o[k] == 0
    then Ledger(l.highest, RemoveFromSliceByIndex(l.nums, k), RemoveFromSliceByIndex(o, k))
    else l.(offs := o)
  }

  function Arrive(l: Ledger, s: int): (r: Ledger)
    requires Parallel(l)
    ensures Parallel(r)
  {
    var diff := s - l.highest;
    if diff > 1 then OpenGap(l, s)
    else if diff < 0 then
      var k := FirstHit(s, l.nums, 0);
      if k < 0 then l else FillGap(l, k)
    else if diff == 1 then l.(highest := s)
    else l
  }

  function Run(arrivals: seq<int>): (l: Ledger)
    ensures Parallel(l)
  {
    if |arrivals| == 0 then FRESH
    else Arrive(Run(arrivals[..|arrivals| - 1]), arrivals[|arrivals| - 1])
  }

  // ------------------------------------------------------------------ shape

  ghost predicate Shape(l: Ledger)
  {
    && Parallel(l)
    && l.highest >= 0
    && (forall k :: 0 <= k < |l.nums| ==> EntryInside(l, k))
    && (forall i, j :: 0 <= i < j < |l.nums| ==> Apart(l, i, j))
  }

  predicate EntryInside(l: Ledger, k: nat)
    requires Parallel(l) && k < |l.nums|
  {
    l.nums[k] >= 1 && l.offs[k] >= 1 && l.nums[k] + l.offs[k] <= l.highest
  }

  predicate Apart(l: Ledger, i: nat, j: nat)
    requires Parallel(l) && i < |l.nums| && j < |l.nums|
  {
    l.nums[i] + l.offs[i] < l.nums[j]
  }

  lemma StartsIncrease(l: Ledger)
    requires Shape(l)
    ensures Increasing(l.nums)
  {
    forall i, j | 0 <= i < j < |l.nums| ensures l.nums[i] < l.nums[j] {
      assert Apart(l, i, j) && EntryInside(l, i);
    }
  }

  lemma StartBelowNext(l: Ledger, k: nat)
    requires Shape(l) && k < |l.nums|
    ensures l.nums[k] < NextStart(l, k) <= l.highest
  {
    assert EntryInside(l, k);
    if k + 1 < |l.nums| {
      assert Apart(l, k, k + 1) && EntryInside(l, k + 1);
    }
  }

  // Any arrival at all, repeated or not, keeps the lists parallel, positive,
  // ordered and separated, and below the highest number.
  lemma ArriveKeepsShape(l: Ledger, s: int)
    requires Shape(l)
    ensures Shape(Arrive(l, s))
    ensures Arrive(l, s).highest == if s > l.highest then s else l.highest
  {
    if s > l.highest + 1 {
      OpenKeepsShape(l, s);
    } else if s == l.highest + 1 {
      NextKeepsShape(l);
    } else if s < l.highest && FirstHit(s, l.nums, 0) >= 0 {
      FillKeepsShape(l, FirstHit(s, l.nums, 0));
    }
  }

  lemma NextKeepsShape(l: Ledger)
    requires Shape(l)
    ensures Shape(l.(highest := l.highest + 1))
  {
    var r := l.(highest := l.highest + 1);
    forall k | 0 <= k < |r.nums| ensures EntryInside(r, k) {
      assert EntryInside(l, k);
    }
    forall i, j | 0 <= i < j < |r.nums| ensures Apart(r, i, j) {
      assert Apart(l, i, j);
    }
  }

  lemma OpenKeepsShape(l: Ledger, s: int)
    requires Shape(l) && s > l.highest + 1
    ensures OpenGap(l, s) == Ledger(s, l.nums + [l.highest + 1], l.offs + [s - l.highest - 1])
    ensures Shape(OpenGap(l, s))
  {
    NextStartIsNew(l);
    var r := OpenGap(l, s);
    forall k | 0 <= k < |r.nums| ensures EntryInside(r, k) {
      assert k < |l.nums| ==> EntryInside(l, k);
    }
    forall i, j | 0 <= i < j < |r.nums| ensures Apart(r, i, j) {
      assert EntryInside(l, i);
      assert j < |l.nums| ==> Apart(l, i, j);
    }
  }

  // The guard against recording a gap twice never fires.
  lemma NextStartIsNew(l: Ledger)
    requires Shape(l)
    ensures l.highest + 1 !in l.nums
  {
    forall k | 0 <= k < |l.nums| ensures l.nums[k] != l.highest + 1 {
      assert EntryInside(l, k);
    }
  }

  lemma FillKeepsShape(l: Ledger, k: nat)
    requires Shape(l) && k < |l.nums|
    ensures Shape(FillGap(l, k))
  {
    var r := FillGap(l, k);
    assert EntryInside(l, k);
    if l.offs[k] == 1 {
      RemoveKeepsShape(l, k);
      assert RemoveFromSliceByIndex(l.offs[k := 0], k) == RemoveFromSliceByIndex(l.offs, k);
    } else {
      forall i | 0 <= i < |r.nums| ensures EntryInside(r, i) {
        assert EntryInside(l, i);
      }
      forall i, j | 0 <= i < j < |r.nums| ensures Apart(r, i, j) {
        assert Apart(l, i, j);
      }
    }
  }

  lemma RemoveKeepsShape(l: Ledger, k: nat)
    requires Shape(l) && k < |l.nums|
    ensures Shape(Ledger(l.highest, RemoveFromSliceByIndex(l.nums, k), RemoveFromSliceByIndex(l.offs, k)))
  {
    var r := Ledger(l.highest, RemoveFromSliceByIndex(l.nums, k), RemoveFromSliceByIndex(l.offs, k));
    forall i | 0 <= i < |r.nums| ensures EntryInside(r, i) {
      assert EntryInside(l, if i < k then i else i + 1);
    }
    forall i, j | 0 <= i < j < |r.nums| ensures Apart(r, i, j) {
      assert Apart(l, if i < k then i else i + 1, if j < k then j else j + 1);
    }
  }

  lemma {:induction false} ShapeOfRun(arrivals: seq<int>)
    ensures Shape(Run(arrivals))
    ensures forall k :: 0 <= k < |arrivals| ==> arrivals[k] <= Run(arrivals).highest
  {
    if |arrivals| > 0 {
      var p, s := arrivals[..|arrivals| - 1], arrivals[|arrivals| - 1];
      ShapeOfRun(p);
      ArriveKeepsShape(Run(p), s);
      assert forall k :: 0 <= k < |p| ==> p[k] == arrivals[k];
    }
  }

  lemma {:induction false} HighestIsBounded(arrivals: seq<int>, bound: nat)
    requires forall k :: 0 <= k < |arrivals| ==> arrivals[k] <= bound
    ensures Run(arrivals).highest <= bound
  {
    if |arrivals| > 0 {
      var p, s := arrivals[..|arrivals| - 1], arrivals[|arrivals| - 1];
      HighestIsBounded(p, bound);
      ShapeOfRun(p);
      ArriveKeepsShape(Run(p), s);
    }
  }

  // In a shaped ledger the guard against recording a gap twice never fires, and
  // the lookup is floor search over the starts.
  lemma GuardNeverFiresAndLookupIsFloor(l: Ledger, s: int)
    requires Shape(l)
    ensures l.highest + 1 !in l.nums
    ensures var r := FirstHit(s, l.nums, 0);
            if r >= 0
            then l.nums[r] <= s && forall k :: r < k < |l.nums| ==> s < l.nums[k]
            else forall k :: 0 <= k < |l.nums| ==> s < l.nums[k]
  {
    NextStartIsNew(l);
    StartsIncrease(l);
    FloorSearch(s, l.nums);
  }

  // ----------------------------------------------------------- conservation

  // Accepted arrivals (RecvPackets), and those among them that only repeated
  // the highest number.
  function AcceptedCount(arrivals: seq<int>): nat
  {
    if |arrivals| == 0 then 0
    else
      var p, s := arrivals[..|arrivals| - 1], arrivals[|arrivals| - 1];
      AcceptedCount(p) + if Rejects(Run(p), s) then 0 else 1
  }

  function HighestRepeats(arrivals: seq<int>): nat
  {
    if |arrivals| == 0 then 0
    else
      var p, s := arrivals[..|arrivals| - 1], arrivals[|arrivals| - 1];
      HighestRepeats(p) + if s == Run(p).highest then 1 else 0
  }

  lemma ArriveConserves(l: Ledger, s: int)
    requires Shape(l)
    ensures var r := Arrive(l, s);
            r.highest - Total(r.offs) == l.highest - Total(l.offs) + if Rejects(l, s) || s == l.highest then 0 else 1
  {
    if s > l.highest + 1 {
      OpenConserves(l, s);
    } else if s < l.highest && FirstHit(s, l.nums, 0) >= 0 {
      FillConserves(l, FirstHit(s, l.nums, 0));
    }
  }

  lemma OpenConserves(l: Ledger, s: int)
    requires Shape(l) && s > l.highest + 1
    ensures var r := OpenGap(l, s); r.highest - Total(r.offs) == l.highest - Total(l.offs) + 1
  {
    OpenKeepsShape(l, s);
    TotalConcat(l.offs, [s - l.highest - 1]);
    TotalOne(s - l.highest - 1);
  }

  lemma FillConserves(l: Ledger, k: nat)
    requires Parallel(l) && k < |l.nums|
    ensures var r := FillGap(l, k); r.highest - Total(r.offs) == l.highest - Total(l.offs) + 1
  {
    var o := l.offs[k := l.offs[k] - 1];
    TotalUpdate(l.offs, k, l.offs[k] - 1);
    if o[k] == 0 {
      TotalRemove(o, k);
    }
  }

  // Over every run, repeats included: accepted packets plus recorded missing
  // ones exceed the highest number by exactly the repeats of the highest.
  lemma {:induction false} Conservation(arrivals: seq<int>)
    ensures var l := Run(arrivals);
            AcceptedCount(arrivals) + Total(l.offs) == l.highest + HighestRepeats(arrivals)
  {
    if |arrivals| > 0 {
      var p, s := arrivals[..|arrivals| - 1], arrivals[|arrivals| - 1];
      Conservation(p);
      ShapeOfRun(p);
      ArriveConserves(Run(p), s);
    }
  }

  // -------------------------------------------- what the ledger stands for

  // The numbers an entry can absorb: from its start to the next entry's start.
  function NextStart(l: Ledger, k: nat): int
    requires k < |l.nums|
  {
    if k + 1 < |l.nums| then l.nums[k + 1] else l.highest
  }

  function FirstStart(l: Ledger): int
  {
    if |l.nums| > 0 then l.nums[0] else l.highest
  }

  // The gap an entry was opened for ends where the packet that opened it lies.
  // An entry does not store this end; it is a function of the arrivals.
  function GapEnds(arrivals: seq<int>): (ends: seq<int>)
    ensures |ends| == |Run(arrivals).nums|
  {
    if |arrivals| == 0 then []
    else
      var p, s := arrivals[..|arrivals| - 1], arrivals[|arrivals| - 1];
      EndsAfter(Run(p), GapEnds(p), s)
  }

  function EndsAfter(l: Ledger, ends: seq<int>, s: int): (r: seq<int>)
    requires Parallel(l) && |ends| == |l.nums|
    ensures |r| == |Arrive(l, s).nums|
  {
    if s > l.highest + 1 then
      if l.highest + 1 in l.nums then ends else ends + [s]
    else if s < l.highest && FirstHit(s, l.nums, 0) >= 0 && l.offs[FirstHit(s, l.nums, 0)] == 1 then
      RemoveFromSliceByIndex(ends, FirstHit(s, l.nums, 0))
    else ends
  }

  // The ledger, with the original ends of its gaps, represents the set of
  // received numbers.
  ghost predicate Refines(l: Ledger, ends: seq<int>, received: set<int>)
  {
    && Shape(l)
    && |ends| == |l.nums|
    && (forall x :: x in received ==> 1 <= x <= l.highest)
    && (l.highest > 0 ==> l.highest in received)
    && (forall k :: 0 <= k < |l.nums| ==> EntryCounts(l, ends, received, k))
    && (forall x :: 1 <= x < FirstStart(l) ==> x in received)
  }

  ghost predicate EntryCounts(l: Ledger, ends: seq<int>, received: set<int>, k: nat)
    requires Parallel(l) && |ends| == |l.nums| && k < |l.nums|
  {
    Counts(l.nums[k], l.offs[k], ends[k], NextStart(l, k), received)
  }

  // The gap [num, end) has off members not received; up to next nothing else
  // is missing.
  ghost predicate Counts(num: int, off: int, end: int, next: int, received: set<int>)
  {
    && num < end <= next
    && off == |Range(num, end) - received|
    && (forall x :: end <= x < next ==> x in received)
  }

  // A number outside the gap does not matter to the entry.
  lemma CountsElsewhere(num: int, off: int, end: int, next: int, received: set<int>, s: int)
    requires Counts(num, off, end, next, received) && !(num <= s < end)
    ensures Counts(num, off, end, next, received + {s})
  {
    assert Range(num, end) - (received + {s}) == Range(num, end) - received;
  }

  lemma CountsAbsorbed(num: int, off: int, end: int, next: int, received: set<int>, s: int)
    requires Counts(num, off, end, next, received) && num <= s < end && s !in received
    ensures Counts(num, off - 1, end, next, received + {s})
  {
    var before := Range(num, end) - received;
    assert s in before;
    assert Range(num, end) - (received + {s}) == before - {s};
  }

  lemma CountsNew(num: int, end: int, received: set<int>)
    requires num < end && forall x :: x in received ==> !(num <= x < end)
    ensures Counts(num, end - num, end, end, received)
  {
    assert Range(num, end) - received == Range(num, end);
    RangeSize(num, end);
  }

  // A count of zero leaves nothing missing behind the entry.
  lemma CountsZero(num: int, off: int, end: int, next: int, received: set<int>, x: int)
    requires Counts(num, off, end, next, received) && off == 0 && num <= x < next
    ensures x in received
  {
    if x < end {
      assert Range(num, end) - received == {};
      assert x in Range(num, end);
    }
  }

  lemma OpenKeepsEntry(l: Ledger, ends: seq<int>, received: set<int>, s: int, k: nat)
    requires Parallel(l) && |ends| == |l.nums| && k < |l.nums|
    requires EntryCounts(l, ends, received, k) && NextStart(l, k) <= l.highest
    requires s > l.highest + 1 && l.highest in received
    ensures EntryCounts(Ledger(s, l.nums + [l.highest + 1], l.offs + [s - l.highest - 1]),
                        ends + [s], received + {s}, k)
  {
    CountsElsewhere(l.nums[k], l.offs[k], ends[k], NextStart(l, k), received, s);
  }

  lemma OpenAddsEntry(l: Ledger, ends: seq<int>, received: set<int>, s: int)
    requires Parallel(l) && |ends| == |l.nums| && s > l.highest + 1
    requires forall x :: x in received ==> x <= l.highest
    ensures EntryCounts(Ledger(s, l.nums + [l.highest + 1], l.offs + [s - l.highest - 1]),
                        ends + [s], received + {s}, |l.nums|)
  {
    CountsNew(l.highest + 1, s, received + {s});
  }

  lemma RefinesOpen(l: Ledger, ends: seq<int>, received: set<int>, s: int)
    requires Refines(l, ends, received) && s > l.highest + 1
    ensures Refines(OpenGap(l, s), ends + [s], received + {s})
  {
    OpenKeepsShape(l, s);
    OpenKeepsEntries(l, ends, received, s, OpenGap(l, s));
    OpenKeepsFirst(l, received, s);
  }

  lemma OpenKeepsEntries(l: Ledger, ends: seq<int>, received: set<int>, s: int, r: Ledger)
    requires Refines(l, ends, received) && s > l.highest + 1
    requires r == Ledger(s, l.nums + [l.highest + 1], l.offs + [s - l.highest - 1])
    ensures forall k :: 0 <= k < |r.nums| ==> EntryCounts(r, ends + [s], received + {s}, k)
  {
    forall k | 0 <= k < |r.nums| ensures EntryCounts(r, ends + [s], received + {s}, k) {
      if k == |l.nums| {
        OpenAddsEntry(l, ends, received, s);
      } else {
        StartBelowNext(l, k);
        assert EntryInside(l, k) && EntryCounts(l, ends, received, k);
        OpenKeepsEntry(l, ends, received, s, k);
      }
    }
  }

  lemma OpenKeepsFirst(l: Ledger, received: set<int>, s: int)
    requires Parallel(l) && (l.highest > 0 ==> l.highest in received)
    requires forall x :: 1 <= x < FirstStart(l) ==> x in received
    ensures forall x :: 1 <= x < FirstStart(Ledger(s, l.nums + [l.highest + 1], l.offs + [s - l.highest - 1])) ==>
              x in received
  {
  }

  lemma NextKeepsEntry(l: Ledger, ends: seq<int>, received: set<int>, k: nat)
    requires Parallel(l) && |ends| == |l.nums| && k < |l.nums|
    requires EntryCounts(l, ends, received, k) && NextStart(l, k) <= l.highest
    requires l.highest in received
    ensures EntryCounts(l.(highest := l.highest + 1), ends, received + {l.highest + 1}, k)
  {
    CountsElsewhere(l.nums[k], l.offs[k], ends[k], NextStart(l, k), received, l.highest + 1);
  }

  lemma RefinesNext(l: Ledger, ends: seq<int>, received: set<int>)
    requires Refines(l, ends, received)
    ensures Refines(l.(highest := l.highest + 1), ends, received + {l.highest + 1})
  {
    var r, recv := l.(highest := l.highest + 1), received + {l.highest + 1};
    NextKeepsShape(l);
    forall k | 0 <= k < |l.nums| ensures EntryCounts(r, ends, recv, k) {
      StartBelowNext(l, k);
      assert EntryInside(l, k) && EntryCounts(l, ends, received, k);
      NextKeepsEntry(l, ends, received, k);
    }
  }

  lemma RefinesGrow(l: Ledger, ends: seq<int>, received: set<int>, s: int)
    requires Refines(l, ends, received) && s > l.highest
    ensures Refines(Arrive(l, s), EndsAfter(l, ends, s), received + {s})
  {
    if s > l.highest + 1 {
      NextStartIsNew(l);
      RefinesOpen(l, ends, received, s);
    } else {
      RefinesNext(l, ends, received);
    }
  }

  // An old number that was not received lies in the entry that the lookup finds.
  lemma LookupFindsItsGap(l: Ledger, ends: seq<int>, received: set<int>, s: int)
    requires Refines(l, ends, received) && 1 <= s < l.highest && s !in received
    ensures var k := FirstHit(s, l.nums, 0);
            0 <= k < |l.nums| && l.nums[k] <= s < ends[k]
  {
    GuardNeverFiresAndLookupIsFloor(l, s);
    var k := FirstHit(s, l.nums, 0);
    assert k >= 0 by {
      assert !(s < FirstStart(l));
    }
    assert EntryCounts(l, ends, received, k);
  }

  lemma EntriesApart(l: Ledger, j: nat, k: nat)
    requires Shape(l) && j < |l.nums| && k < |l.nums| && k != j
    ensures if k < j then NextStart(l, k) <= l.nums[j] else NextStart(l, j) <= l.nums[k]
  {
    StartsIncrease(l);
  }

  // Entries are apart, so a number absorbed by one leaves the others alone.
  lemma OtherEntry(l: Ledger, ends: seq<int>, received: set<int>, s: int, j: nat, k: nat)
    requires Refines(l, ends, received) && j < |l.nums| && k < |l.nums| && k != j
    requires l.nums[j] <= s < ends[j]
    ensures Counts(l.nums[k], l.offs[k], ends[k], NextStart(l, k), received + {s})
  {
    assert EntryCounts(l, ends, received, k) && EntryCounts(l, ends, received, j);
    EntriesApart(l, j, k);
    CountsElsewhere(l.nums[k], l.offs[k], ends[k], NextStart(l, k), received, s);
  }

  lemma RefinesFill(l: Ledger, ends: seq<int>, received: set<int>, s: int, j: nat)
    requires Refines(l, ends, received) && s !in received
    requires j < |l.nums| && l.nums[j] <= s < ends[j]
    ensures var e := if l.offs[j] == 1 then RemoveFromSliceByIndex(ends, j) else ends;
            Refines(FillGap(l, j), e, received + {s})
  {
    assert EntryInside(l, j) && EntryCounts(l, ends, received, j);
    StartBelowNext(l, j);
    CountsAbsorbed(l.nums[j], l.offs[j], ends[j], NextStart(l, j), received, s);
    FillKeepsShape(l, j);
    if l.offs[j] == 1 {
      RefinesClose(l, ends, received, s, j);
    } else {
      var r, recv := FillGap(l, j), received + {s};
      forall k | 0 <= k < |r.nums| ensures EntryCounts(r, ends, recv, k) {
        if k != j {
          OtherEntry(l, ends, received, s, j, k);
        }
      }
    }
  }

  // The entry before a removed one takes over its interval.
  lemma CloseKeepsEntry(l: Ledger, ends: seq<int>, received: set<int>, j: nat, k: nat)
    requires Parallel(l) && |ends| == |l.nums| && j < |l.nums| && k < |l.nums| - 1
    requires l.offs[j] == 1 && l.nums[j] <= NextStart(l, j)
    requires forall x :: l.nums[j] <= x < NextStart(l, j) ==> x in received
    requires EntryCounts(l, ends, received, if k < j then k else k + 1)
    ensures EntryCounts(FillGap(l, j), RemoveFromSliceByIndex(ends, j), received, k)
  {
    var r, e := FillGap(l, j), RemoveFromSliceByIndex(ends, j);
    var was := if k < j then k else k + 1;
    assert r.nums[k] == l.nums[was] && r.offs[k] == l.offs[was] && e[k] == ends[was];
    assert NextStart(r, k) == if k + 1 == j then NextStart(l, j) else NextStart(l, was);
  }

  lemma RefinesClose(l: Ledger, ends: seq<int>, received: set<int>, s: int, j: nat)
    requires Refines(l, ends, received) && s !in received
    requires j < |l.nums| && l.nums[j] <= s < ends[j] && l.offs[j] == 1
    requires Counts(l.nums[j], 0, ends[j], NextStart(l, j), received + {s})
    requires Shape(FillGap(l, j))
    ensures Refines(FillGap(l, j), RemoveFromSliceByIndex(ends, j), received + {s})
  {
    var r, e, recv := FillGap(l, j), RemoveFromSliceByIndex(ends, j), received + {s};
    StartBelowNext(l, j);
    assert EntryInside(l, j) && EntryCounts(l, ends, received, j);
    forall x | l.nums[j] <= x < NextStart(l, j) ensures x in recv {
      CountsZero(l.nums[j], 0, ends[j], NextStart(l, j), recv, x);
    }
    forall k | 0 <= k < |r.nums| ensures EntryCounts(r, e, recv, k) {
      OtherEntry(l, ends, received, s, j, if k < j then k else k + 1);
      CloseKeepsEntry(l, ends, recv, j, k);
    }
  }

  lemma RefinesArrive(l: Ledger, ends: seq<int>, received: set<int>, s: int)
    requires Refines(l, ends, received) && s >= 1 && s !in received
    ensures !Rejects(l, s)
    ensures Refines(Arrive(l, s), EndsAfter(l, ends, s), received + {s})
  {
    if s > l.highest {
      RefinesGrow(l, ends, received, s);
    } else {
      LookupFindsItsGap(l, ends, received, s);
      RefinesFill(l, ends, received, s, FirstHit(s, l.nums, 0));
    }
  }

  ghost predicate Positive(arrivals: seq<int>)
  {
    forall k :: 0 <= k < |arrivals| ==> arrivals[k] >= 1
  }

  // For every arrival order without repeats the ledger represents exactly the
  // numbers received.
  lemma {:induction false} LedgerRefinesReceivedSet(arrivals: seq<int>)
    requires NoRepeats(arrivals) && Positive(arrivals)
    ensures Refines(Run(arrivals), GapEnds(arrivals), Elements(arrivals))
  {
    if |arrivals| == 0 {
      assert Elements(arrivals) == {};
    } else {
      var n := |arrivals| - 1;
      var p := arrivals[..n];
      ElementsSplit(arrivals);
      LedgerRefinesReceivedSet(p);
      RefinesArrive(Run(p), GapEnds(p), Elements(p), arrivals[n]);
    }
  }

  // Each arrival of such a run is stored, and moves or fills the ledger.
  lemma NoneTurnedAway(arrivals: seq<int>, k: nat)
    requires NoRepeats(arrivals) && Positive(arrivals) && k < |arrivals|
    ensures !Rejects(Run(arrivals[..k]), arrivals[k]) && arrivals[k] != Run(arrivals[..k]).highest
  {
    var p := arrivals[..k];
    assert arrivals[k] !in Elements(p);
    LedgerRefinesReceivedSet(p);
    RefinesArrive(Run(p), GapEnds(p), Elements(p), arrivals[k]);
  }

  lemma {:induction false} AllAccepted(arrivals: seq<int>)
    requires NoRepeats(arrivals) && Positive(arrivals)
    ensures AcceptedCount(arrivals) == |arrivals| && HighestRepeats(arrivals) == 0
  {
    if |arrivals| > 0 {
      AllAccepted(arrivals[..|arrivals| - 1]);
      NoneTurnedAway(arrivals, |arrivals| - 1);
    }
  }

  // The arrivals that were stored.
  ghost function StoredIn(arrivals: seq<int>): set<int>
  {
    if |arrivals| == 0 then {}
    else
      var p, s := arrivals[..|arrivals| - 1], arrivals[|arrivals| - 1];
      StoredIn(p) + if Rejects(Run(p), s) then {} else {s}
  }

  // Without repeats everything that arrived is stored.
  lemma {:induction false} NoRepeatsStoresAll(arrivals: seq<int>)
    requires NoRepeats(arrivals) && Positive(arrivals)
    ensures StoredIn(arrivals) == Elements(arrivals)
  {
    if |arrivals| > 0 {
      ElementsSplit(arrivals);
      NoneTurnedAway(arrivals, |arrivals| - 1);
      NoRepeatsStoresAll(arrivals[..|arrivals| - 1]);
    }
  }

  // Read off the ledger: how many numbers below the highest are missing, that
  // each entry counts those of its original gap, and where the lookup finds a
  // missing number.
  lemma LedgerAnswers(arrivals: seq<int>)
    requires NoRepeats(arrivals) && Positive(arrivals)
    ensures var l, ends := Run(arrivals), GapEnds(arrivals);
            && Total(l.offs) == l.highest - |arrivals|
            && (forall k :: 0 <= k < |l.nums| ==> l.offs[k] == |Range(l.nums[k], ends[k]) - Elements(arrivals)|)
            && (forall x :: 1 <= x < l.highest && x !in Elements(arrivals) ==>
                  var k := FirstHit(x, l.nums, 0);
                  0 <= k < |l.nums| && l.nums[k] <= x < ends[k])
  {
    var l, ends, received := Run(arrivals), GapEnds(arrivals), Elements(arrivals);
    LedgerRefinesReceivedSet(arrivals);
    Conservation(arrivals);
    AllAccepted(arrivals);
    forall k | 0 <= k < |l.nums| ensures l.offs[k] == |Range(l.nums[k], ends[k]) - received| {
      assert EntryCounts(l, ends, received, k);
    }
    forall x | 1 <= x < l.highest && x !in received
      ensures var k := FirstHit(x, l.nums, 0); 0 <= k < |l.nums| && l.nums[k] <= x < ends[k]
    {
      LookupFindsItsGap(l, ends, received, x);
    }
  }

  // Nothing is missing exactly when the list of entries is empty.
  lemma EmptyMeansComplete(l: Ledger, ends: seq<int>, received: set<int>)
    requires Refines(l, ends, received)
    ensures |l.nums| == 0 <==> received == Range(1, l.highest + 1)
  {
    if |l.nums| > 0 {
      assert EntryInside(l, 0) && EntryCounts(l, ends, received, 0);
      StartBelowNext(l, 0);
      var x :| x in Range(l.nums[0], ends[0]) - received;
      assert x in Range(1, l.highest + 1);
    }
  }

  // Once each of 1..n has arrived, in any order, nothing is recorded missing.
  lemma CompleteRun(arrivals: seq<int>, n: nat)
    requires NoRepeats(arrivals) && Elements(arrivals) == Range(1, n + 1)
    ensures Run(arrivals) == Ledger(n, [], [])
  {
    forall k | 0 <= k < |arrivals| ensures arrivals[k] >= 1 {
      assert arrivals[k] in Elements(arrivals);
    }
    LedgerRefinesReceivedSet(arrivals);
    var l := Run(arrivals);
    assert l.highest <= n by {
      assert l.highest > 0 ==> l.highest in Range(1, n + 1);
    }
    assert l.highest >= n by {
      assert n > 0 ==> n in Elements(arrivals);
    }
    EmptyMeansComplete(l, GapEnds(arrivals), Elements(arrivals));
  }

  // With a repeat below the highest number this fails: 3, 1, 1 empties the gap
  // that 2 belongs to, and 2 itself is then turned away.
  lemma RepeatLosesPacket()
    ensures var l := Run([3, 1, 1]);
            l == Ledger(3, [], []) && Rejects(l, 2)
  {
    var a := [3, 1, 1];
    assert a[..2] == [3, 1] && a[..2][..1] == [3] && a[..2][..1][..0] == [];
    assert Run([3]) == Ledger(3, [1], [2]);
    assert Run([3, 1]) == Ledger(3, [1], [1]);
  }
}
