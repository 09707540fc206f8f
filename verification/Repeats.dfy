// What repeated numbers do to the receiver's ledger, exactly
// (dataplane/partcontext.go:121-188).
module Repeats {
  import opened Utils
  import opened GapLedger

  // Accepted arrivals that were stored before and are not the highest number:
  // each counts down a gap that it does not fill.
  ghost function LowRepeats(arrivals: seq<int>): nat
  {
    if |arrivals| == 0 then 0
    else
      var p, s := arrivals[..|arrivals| - 1], arrivals[|arrivals| - 1];
      LowRepeats(p) + if IsLowRepeat(p, s) then 1 else 0
  }

  ghost predicate IsLowRepeat(arrivals: seq<int>, s: int)
  {
    s in StoredIn(arrivals) && s != Run(arrivals).highest && !Rejects(Run(arrivals), s)
  }

  // Stored numbers go up to the highest, which is one of them.
  lemma {:induction false} StoredUpToHighest(arrivals: seq<int>)
    requires Positive(arrivals)
    ensures forall x :: x in StoredIn(arrivals) ==> 1 <= x <= Run(arrivals).highest
    ensures Run(arrivals).highest > 0 ==> Run(arrivals).highest in StoredIn(arrivals)
  {
    if |arrivals| > 0 {
      var p, s := arrivals[..|arrivals| - 1], arrivals[|arrivals| - 1];
      StoredUpToHighest(p);
      ShapeOfRun(p);
      ArriveKeepsShape(Run(p), s);
    }
  }

  // How one arrival changes the size of the stored set.
  lemma StoredGrows(stored: set<int>, highest: int, s: int, rejects: bool)
    requires s >= 1 && (forall x :: x in stored ==> x <= highest) && (highest > 0 ==> highest in stored)
    ensures |stored + if rejects then {} else {s}| - |stored|
            + (if s in stored && s != highest && !rejects then 1 else 0)
         == if rejects || s == highest then 0 else 1
  {
    if s in stored || rejects {
      assert stored + (if rejects then {} else {s}) == stored;
    }
  }

  // Over every run: the numbers recorded missing, those stored and the low
  // repeats add up to the highest number.
  lemma {:induction false} Balance(arrivals: seq<int>)
    requires Positive(arrivals)
    ensures Total(Run(arrivals).offs) + |StoredIn(arrivals)| + LowRepeats(arrivals) == Run(arrivals).highest
  {
    if |arrivals| > 0 {
      var p, s := arrivals[..|arrivals| - 1], arrivals[|arrivals| - 1];
      Balance(p);
      ShapeOfRun(p);
      StoredUpToHighest(p);
      StoredGrows(StoredIn(p), Run(p).highest, s, Rejects(Run(p), s));
      ArriveConserves(Run(p), s);
    }
  }

  // ------------------------------------------------ when the ledger is right

  // Where entry k starts, or the record ends.
  function StartOf(l: Ledger, k: nat): int
    requires k <= |l.nums|
  {
    if k < |l.nums| then l.nums[k] else l.highest
  }

  // One entry more: its count is what is missing up to the next one.
  lemma MissingWithEntry(l: Ledger, ends: seq<int>, received: set<int>, k: nat)
    requires Refines(l, ends, received) && k < |l.nums|
    ensures |Range(1, StartOf(l, k + 1)) - received| == |Range(1, StartOf(l, k)) - received| + l.offs[k]
  {
    assert EntryInside(l, k) && EntryCounts(l, ends, received, k);
    MissingUpTo(l.nums[k], ends[k], NextStart(l, k), received);
  }

  lemma TotalNext(s: seq<int>, k: nat)
    requires k < |s|
    ensures Total(s[..k + 1]) == Total(s[..k]) + s[k]
  {
    assert s[..k + 1][..k] == s[..k];
  }

  // The numbers missing below an entry are those that the entries before it count.
  lemma {:induction false} MissingBefore(l: Ledger, ends: seq<int>, received: set<int>, k: nat)
    requires Refines(l, ends, received) && k <= |l.nums|
    ensures |Range(1, StartOf(l, k)) - received| == Total(l.offs[..k])
  {
    if k == 0 {
      assert Range(1, FirstStart(l)) - received == {};
    } else {
      MissingBefore(l, ends, received, k - 1);
      MissingOneMore(l, ends, received, k - 1);
    }
  }

  lemma MissingOneMore(l: Ledger, ends: seq<int>, received: set<int>, k: nat)
    requires Refines(l, ends, received) && k < |l.nums|
    requires |Range(1, StartOf(l, k)) - received| == Total(l.offs[..k])
    ensures |Range(1, StartOf(l, k + 1)) - received| == Total(l.offs[..k + 1])
  {
    MissingWithEntry(l, ends, received, k);
    TotalNext(l.offs, k);
  }

  lemma MissingUpTo(start: int, end: int, next: int, received: set<int>)
    requires 1 <= start < end <= next && forall x :: end <= x < next ==> x in received
    ensures |Range(1, next) - received| == |Range(1, start) - received| + |Range(start, end) - received|
  {
    assert Range(1, next) - received == (Range(1, start) - received) + (Range(start, end) - received);
    assert (Range(1, start) - received) !! (Range(start, end) - received);
  }

  // Up to the highest number, what is received and what is missing.
  lemma ReceivedAndMissing(highest: nat, received: set<int>)
    requires forall x :: x in received ==> 1 <= x <= highest
    requires highest > 0 ==> highest in received
    ensures |received| + |Range(1, highest) - received| == highest
  {
    var missing := Range(1, highest) - received;
    RangeSize(1, highest + 1);
    assert Range(1, highest + 1) == received + missing;
    assert received !! missing;
  }

  lemma RefinesTotal(l: Ledger, ends: seq<int>, received: set<int>)
    requires Refines(l, ends, received)
    ensures Total(l.offs) + |received| == l.highest
  {
    MissingBefore(l, ends, received, |l.nums|);
    assert l.offs[..|l.offs|] == l.offs;
    ReceivedAndMissing(l.highest, received);
  }

  // The ledger represents the stored numbers if and only if no low repeat was
  // accepted; repeats of the highest and rejected ones do no harm.
  lemma RepresentsExactlyWithoutLowRepeats(arrivals: seq<int>)
    requires Positive(arrivals)
    ensures Refines(Run(arrivals), GapEnds(arrivals), StoredIn(arrivals)) <==> LowRepeats(arrivals) == 0
  {
    Balance(arrivals);
    if LowRepeats(arrivals) == 0 {
      NoLowRepeatRefines(arrivals);
    }
    if Refines(Run(arrivals), GapEnds(arrivals), StoredIn(arrivals)) {
      RefinesTotal(Run(arrivals), GapEnds(arrivals), StoredIn(arrivals));
    }
  }

  lemma {:induction false} NoLowRepeatRefines(arrivals: seq<int>)
    requires Positive(arrivals) && LowRepeats(arrivals) == 0
    ensures Refines(Run(arrivals), GapEnds(arrivals), StoredIn(arrivals))
  {
    if |arrivals| > 0 {
      var p, s := arrivals[..|arrivals| - 1], arrivals[|arrivals| - 1];
      NoLowRepeatRefines(p);
      if s !in StoredIn(p) {
        RefinesArrive(Run(p), GapEnds(p), StoredIn(p), s);
      } else {
        HarmlessRepeat(Run(p), GapEnds(p), StoredIn(p), s);
        assert StoredIn(arrivals) == StoredIn(p);
      }
    }
  }

  lemma HarmlessRepeat(l: Ledger, ends: seq<int>, received: set<int>, s: int)
    requires Refines(l, ends, received) && s in received && (s == l.highest || Rejects(l, s))
    ensures Arrive(l, s) == l && EndsAfter(l, ends, s) == ends
  {
  }

  // --------------------------------------------- what an entry asks for

  // The numbers that the entry names are exactly the missing ones of its gap.
  ghost predicate NamesMissing(num: int, off: int, end: int, received: set<int>)
  {
    Range(num, num + off) == Range(num, end) - received
  }

  // What has come of the gap are its last numbers.
  ghost predicate LastOnesReceived(num: int, end: int, received: set<int>)
  {
    forall x, y :: num <= x < y < end && x in received ==> y in received
  }

  ghost function FirstReceived(num: int, end: int, received: set<int>): (m: int)
    requires num <= end
    ensures num <= m <= end && (m < end ==> m in received)
    ensures forall x :: num <= x < m ==> x !in received
    decreases end - num
  {
    if num == end || num in received then num else FirstReceived(num + 1, end, received)
  }

  lemma MissingIsRange(num: int, end: int, received: set<int>) returns (m: int)
    requires num <= end && LastOnesReceived(num, end, received)
    ensures num <= m && Range(num, end) - received == Range(num, m)
  {
    m := FirstReceived(num, end, received);
    forall x | num <= x < end ensures x in received <==> m <= x {
    }
  }

  lemma FirstOnesMissing(num: int, end: int, received: set<int>)
    requires num <= end && LastOnesReceived(num, end, received)
    ensures var missing := Range(num, end) - received; missing == Range(num, num + |missing|)
  {
    var m := MissingIsRange(num, end, received);
    RangeSize(num, m);
  }

  // ------------------------------------------- arrivals that fill nothing

  // s is a missing number of the gap that entry k was opened for.
  ghost predicate Fills(l: Ledger, ends: seq<int>, stored: set<int>, k: nat, s: int)
    requires |ends| == |l.nums| && k < |l.nums|
  {
    l.nums[k] <= s < ends[k] && s !in stored
  }

  // For each entry, the arrivals that counted it down without filling its gap:
  // repeats, and numbers of earlier gaps whose entries were used up. A history;
  // the receiver does not store it.
  ghost function Wasted(arrivals: seq<int>): (r: seq<nat>)
    ensures |r| == |Run(arrivals).nums|
  {
    if |arrivals| == 0 then []
    else
      var p, s := arrivals[..|arrivals| - 1], arrivals[|arrivals| - 1];
      WastedAfter(Run(p), GapEnds(p), StoredIn(p), Wasted(p), s)
  }

  ghost function WastedAfter(l: Ledger, ends: seq<int>, stored: set<int>, wasted: seq<nat>, s: int): (r: seq<nat>)
    requires Parallel(l) && |ends| == |wasted| == |l.nums|
    ensures |r| == |Arrive(l, s).nums|
  {
    if s > l.highest + 1 then
      if l.highest + 1 in l.nums then wasted else wasted + [0]
    else if s < l.highest && FirstHit(s, l.nums, 0) >= 0 then
      WastedAfterFill(l, ends, stored, wasted, FirstHit(s, l.nums, 0), s)
    else wasted
  }

  ghost function WastedAfterFill(l: Ledger, ends: seq<int>, stored: set<int>, wasted: seq<nat>, k: nat, s: int)
    : (r: seq<nat>)
    requires Parallel(l) && |ends| == |wasted| == |l.nums| && k < |l.nums|
    ensures |r| == |FillGap(l, k).nums|
  {
    var w := if Fills(l, ends, stored, k, s) then wasted else wasted[k := wasted[k] + 1];
    if l.offs[k] == 1 then RemoveFromSliceByIndex(w, k) else w
  }

  // Each entry's count, with what was wasted on it, is what its gap misses.
  ghost predicate Tally(l: Ledger, ends: seq<int>, wasted: seq<nat>, stored: set<int>)
  {
    && Shape(l) && |ends| == |wasted| == |l.nums|
    && (forall x :: x in stored ==> x <= l.highest)
    && (forall k :: 0 <= k < |l.nums| ==> EntryOwes(l, ends, wasted, stored, k))
  }

  ghost predicate EntryOwes(l: Ledger, ends: seq<int>, wasted: seq<nat>, stored: set<int>, k: nat)
    requires Parallel(l) && |ends| == |wasted| == |l.nums| && k < |l.nums|
  {
    Owes(l.nums[k], l.offs[k] + wasted[k], ends[k], NextStart(l, k), stored)
  }

  ghost predicate Owes(num: int, owed: int, end: int, next: int, stored: set<int>)
  {
    num < end <= next && owed == |Range(num, end) - stored|
  }

  lemma OwesElsewhere(num: int, owed: int, end: int, next: int, stored: set<int>, s: int)
    requires Owes(num, owed, end, next, stored) && (!(num <= s < end) || s in stored)
    ensures Owes(num, owed, end, next, stored + {s})
  {
    assert Range(num, end) - (stored + {s}) == Range(num, end) - stored;
  }

  lemma OwesOneLess(num: int, owed: int, end: int, next: int, stored: set<int>, s: int)
    requires Owes(num, owed, end, next, stored) && num <= s < end && s !in stored
    ensures Owes(num, owed - 1, end, next, stored + {s})
  {
    var before := Range(num, end) - stored;
    assert s in before;
    assert Range(num, end) - (stored + {s}) == before - {s};
  }

  lemma OwesAll(num: int, end: int, stored: set<int>)
    requires num < end && forall x :: x in stored ==> !(num <= x < end)
    ensures Owes(num, end - num, end, end, stored)
  {
    assert Range(num, end) - stored == Range(num, end);
    RangeSize(num, end);
  }

  lemma OpenKeepsOwed(l: Ledger, ends: seq<int>, wasted: seq<nat>, stored: set<int>, s: int, k: nat)
    requires Parallel(l) && |ends| == |wasted| == |l.nums| && k < |l.nums|
    requires EntryOwes(l, ends, wasted, stored, k) && NextStart(l, k) <= l.highest && s > l.highest + 1
    ensures EntryOwes(Ledger(s, l.nums + [l.highest + 1], l.offs + [s - l.highest - 1]),
                      ends + [s], wasted + [0], stored + {s}, k)
  {
    OwesElsewhere(l.nums[k], l.offs[k] + wasted[k], ends[k], NextStart(l, k), stored, s);
  }

  lemma OpenOwesAll(l: Ledger, ends: seq<int>, wasted: seq<nat>, stored: set<int>, s: int)
    requires Parallel(l) && |ends| == |wasted| == |l.nums| && s > l.highest + 1
    requires forall x :: x in stored ==> x <= l.highest
    ensures EntryOwes(Ledger(s, l.nums + [l.highest + 1], l.offs + [s - l.highest - 1]),
                      ends + [s], wasted + [0], stored + {s}, |l.nums|)
  {
    OwesAll(l.highest + 1, s, stored + {s});
  }

  lemma TallyOpen(l: Ledger, ends: seq<int>, wasted: seq<nat>, stored: set<int>, s: int)
    requires Tally(l, ends, wasted, stored) && s > l.highest + 1
    ensures Tally(OpenGap(l, s), ends + [s], wasted + [0], stored + {s})
  {
    OpenKeepsShape(l, s);
    OpenOwesAll(l, ends, wasted, stored, s);
    forall k | 0 <= k < |l.nums| ensures EntryOwes(OpenGap(l, s), ends + [s], wasted + [0], stored + {s}, k) {
      StartBelowNext(l, k);
      assert EntryOwes(l, ends, wasted, stored, k);
      OpenKeepsOwed(l, ends, wasted, stored, s, k);
    }
  }

  // A number from the highest on that opens no gap.
  lemma TallyAbove(l: Ledger, ends: seq<int>, wasted: seq<nat>, stored: set<int>, s: int)
    requires Tally(l, ends, wasted, stored) && l.highest <= s <= l.highest + 1
    ensures Tally(l.(highest := s), ends, wasted, stored + {s})
  {
    var r := l.(highest := s);
    if s > l.highest {
      NextKeepsShape(l);
    }
    forall k | 0 <= k < |r.nums| ensures EntryOwes(r, ends, wasted, stored + {s}, k) {
      StartBelowNext(l, k);
      assert EntryOwes(l, ends, wasted, stored, k);
      OwesElsewhere(l.nums[k], l.offs[k] + wasted[k], ends[k], NextStart(l, k), stored, s);
    }
  }

  // The lookup found entry k: no other gap holds s.
  lemma OtherOwes(l: Ledger, ends: seq<int>, wasted: seq<nat>, stored: set<int>, k: nat, s: int, j: nat)
    requires Tally(l, ends, wasted, stored) && k < |l.nums| && j < |l.nums| && j != k
    requires l.nums[k] <= s && forall i :: k < i < |l.nums| ==> s < l.nums[i]
    ensures Owes(l.nums[j], l.offs[j] + wasted[j], ends[j], NextStart(l, j), stored + {s})
  {
    assert EntryOwes(l, ends, wasted, stored, j);
    EntriesApart(l, k, j);
    OwesElsewhere(l.nums[j], l.offs[j] + wasted[j], ends[j], NextStart(l, j), stored, s);
  }

  // An arrival that counts entry k down, before the entry is removed at zero.
  lemma CountedDown(l: Ledger, ends: seq<int>, wasted: seq<nat>, stored: set<int>, k: nat, s: int, w: seq<nat>)
    requires Tally(l, ends, wasted, stored) && k < |l.nums| && l.nums[k] <= s
    requires forall i :: k < i < |l.nums| ==> s < l.nums[i]
    requires w == if Fills(l, ends, stored, k, s) then wasted else wasted[k := wasted[k] + 1]
    ensures forall j :: 0 <= j < |l.nums| ==>
              Owes(l.nums[j], l.offs[k := l.offs[k] - 1][j] + w[j], ends[j], NextStart(l, j), stored + {s})
  {
    forall j | 0 <= j < |l.nums|
      ensures Owes(l.nums[j], l.offs[k := l.offs[k] - 1][j] + w[j], ends[j], NextStart(l, j), stored + {s})
    {
      if j != k {
        OtherOwes(l, ends, wasted, stored, k, s, j);
      } else {
        assert EntryOwes(l, ends, wasted, stored, k);
        if Fills(l, ends, stored, k, s) {
          OwesOneLess(l.nums[k], l.offs[k] + wasted[k], ends[k], NextStart(l, k), stored, s);
        } else {
          OwesElsewhere(l.nums[k], l.offs[k] + wasted[k], ends[k], NextStart(l, k), stored, s);
        }
      }
    }
  }

  lemma TallyFill(l: Ledger, ends: seq<int>, wasted: seq<nat>, stored: set<int>, k: nat, s: int)
    requires Tally(l, ends, wasted, stored) && k < |l.nums| && l.nums[k] <= s < l.highest
    requires forall i :: k < i < |l.nums| ==> s < l.nums[i]
    ensures var e := if l.offs[k] == 1 then RemoveFromSliceByIndex(ends, k) else ends;
            Tally(FillGap(l, k), e, WastedAfterFill(l, ends, stored, wasted, k, s), stored + {s})
  {
    var w := if Fills(l, ends, stored, k, s) then wasted else wasted[k := wasted[k] + 1];
    CountedDown(l, ends, wasted, stored, k, s, w);
    FillKeepsShape(l, k);
    if l.offs[k] == 1 {
      CloseKeepsOwed(l, ends, w, stored + {s}, k);
    } else {
      CountKeepsOwed(l, ends, w, stored + {s}, k);
    }
  }

  lemma CountKeepsOwed(l: Ledger, ends: seq<int>, w: seq<nat>, stored: set<int>, k: nat)
    requires Shape(l) && |ends| == |w| == |l.nums| && k < |l.nums| && l.offs[k] != 1
    requires forall j :: 0 <= j < |l.nums| ==>
               Owes(l.nums[j], l.offs[k := l.offs[k] - 1][j] + w[j], ends[j], NextStart(l, j), stored)
    ensures forall j :: 0 <= j < |l.nums| ==> EntryOwes(FillGap(l, k), ends, w, stored, j)
  {
    var r := FillGap(l, k);
    forall j | 0 <= j < |l.nums| ensures EntryOwes(r, ends, w, stored, j) {
      assert NextStart(r, j) == NextStart(l, j);
    }
  }

  lemma CloseKeepsOwed(l: Ledger, ends: seq<int>, w: seq<nat>, stored: set<int>, k: nat)
    requires Shape(l) && |ends| == |w| == |l.nums| && k < |l.nums| && l.offs[k] == 1
    requires forall j :: 0 <= j < |l.nums| ==>
               Owes(l.nums[j], l.offs[k := l.offs[k] - 1][j] + w[j], ends[j], NextStart(l, j), stored)
    ensures forall j :: 0 <= j < |l.nums| - 1 ==>
              EntryOwes(FillGap(l, k), RemoveFromSliceByIndex(ends, k), RemoveFromSliceByIndex(w, k), stored, j)
  {
    forall j | 0 <= j < |l.nums| - 1
      ensures EntryOwes(FillGap(l, k), RemoveFromSliceByIndex(ends, k), RemoveFromSliceByIndex(w, k), stored, j)
    {
      var was := if j < k then j else j + 1;
      assert Owes(l.nums[was], l.offs[k := l.offs[k] - 1][was] + w[was], ends[was], NextStart(l, was), stored);
      RemovedStillOwes(l, ends, w, stored, k, j);
    }
  }

  lemma RemovedStillOwes(l: Ledger, ends: seq<int>, w: seq<nat>, stored: set<int>, k: nat, j: nat)
    requires Shape(l) && |ends| == |w| == |l.nums| && k < |l.nums| && j < |l.nums| - 1 && l.offs[k] == 1
    requires var was := if j < k then j else j + 1;
             Owes(l.nums[was], l.offs[was] + w[was], ends[was], NextStart(l, was), stored)
    ensures EntryOwes(FillGap(l, k), RemoveFromSliceByIndex(ends, k), RemoveFromSliceByIndex(w, k), stored, j)
  {
    var was := AfterRemoval(l, k, j);
    assert RemoveFromSliceByIndex(ends, k)[j] == ends[was] && RemoveFromSliceByIndex(w, k)[j] == w[was];
    OwesFurther(l.nums[was], l.offs[was] + w[was], ends[was], NextStart(l, was), NextStart(FillGap(l, k), j), stored);
  }

  // Where entry j was before entry k was removed; its stretch only grows.
  lemma AfterRemoval(l: Ledger, k: nat, j: nat) returns (was: nat)
    requires Shape(l) && k < |l.nums| && j < |l.nums| - 1 && l.offs[k] == 1
    ensures was == (if j < k then j else j + 1) && |FillGap(l, k).nums| == |l.nums| - 1
    ensures FillGap(l, k).nums[j] == l.nums[was] && FillGap(l, k).offs[j] == l.offs[was]
    ensures NextStart(l, was) <= NextStart(FillGap(l, k), j)
  {
    was := if j < k then j else j + 1;
    var r := FillGap(l, k);
    StartBelowNext(l, k);
    assert r.nums[j] == l.nums[was] && r.offs[j] == l.offs[was];
    assert NextStart(r, j) == if j + 1 == k then NextStart(l, k) else NextStart(l, was);
  }

  lemma OwesFurther(num: int, owed: int, end: int, next: int, further: int, stored: set<int>)
    requires Owes(num, owed, end, next, stored) && next <= further
    ensures Owes(num, owed, end, further, stored)
  {
  }

  lemma TallyArrive(l: Ledger, ends: seq<int>, wasted: seq<nat>, stored: set<int>, s: int)
    requires Tally(l, ends, wasted, stored)
    ensures Tally(Arrive(l, s), EndsAfter(l, ends, s), WastedAfter(l, ends, stored, wasted, s),
                  stored + if Rejects(l, s) then {} else {s})
  {
    if s > l.highest + 1 {
      NextStartIsNew(l);
      TallyOpen(l, ends, wasted, stored, s);
    } else if s >= l.highest {
      assert l.(highest := l.highest) == l;
      TallyAbove(l, ends, wasted, stored, s);
    } else if FirstHit(s, l.nums, 0) >= 0 {
      GuardNeverFiresAndLookupIsFloor(l, s);
      TallyFill(l, ends, wasted, stored, FirstHit(s, l.nums, 0), s);
    } else {
      assert stored + {} == stored;
    }
  }

  // Over every run, repeats included.
  lemma {:induction false} CountsAndWaste(arrivals: seq<int>)
    ensures Tally(Run(arrivals), GapEnds(arrivals), Wasted(arrivals), StoredIn(arrivals))
  {
    if |arrivals| > 0 {
      var p, s := arrivals[..|arrivals| - 1], arrivals[|arrivals| - 1];
      CountsAndWaste(p);
      TallyArrive(Run(p), GapEnds(p), Wasted(p), StoredIn(p), s);
    }
  }

  // An entry keeps its start while its count goes down. It asks for exactly the
  // missing numbers of its gap if and only if no arrival was wasted on it and
  // what came of the gap are its last numbers.
  lemma EntryNamesMissingExactly(arrivals: seq<int>, k: nat)
    requires k < |Run(arrivals).nums|
    ensures var l, end, stored := Run(arrivals), GapEnds(arrivals)[k], StoredIn(arrivals);
            && (NamesMissing(l.nums[k], l.offs[k], end, stored)
                <==> Wasted(arrivals)[k] == 0 && LastOnesReceived(l.nums[k], end, stored))
  {
    CountsAndWaste(arrivals);
    ShapeOfRun(arrivals);
    var l, ends, stored := Run(arrivals), GapEnds(arrivals), StoredIn(arrivals);
    assert EntryOwes(l, ends, Wasted(arrivals), stored, k) && EntryInside(l, k);
    NamesMissingExactly(l.nums[k], l.offs[k], Wasted(arrivals)[k], ends[k], NextStart(l, k), stored);
  }

  // Without repeats below the highest nothing is wasted.
  lemma NothingWasted(arrivals: seq<int>, k: nat)
    requires Positive(arrivals) && LowRepeats(arrivals) == 0 && k < |Run(arrivals).nums|
    ensures Wasted(arrivals)[k] == 0
  {
    RepresentsExactlyWithoutLowRepeats(arrivals);
    CountsAndWaste(arrivals);
    assert EntryCounts(Run(arrivals), GapEnds(arrivals), StoredIn(arrivals), k);
    assert EntryOwes(Run(arrivals), GapEnds(arrivals), Wasted(arrivals), StoredIn(arrivals), k);
  }

  lemma NamesMissingExactly(num: int, off: int, waste: nat, end: int, next: int, received: set<int>)
    requires Owes(num, off + waste, end, next, received) && off >= 1
    ensures NamesMissing(num, off, end, received) <==> waste == 0 && LastOnesReceived(num, end, received)
  {
    if waste == 0 && LastOnesReceived(num, end, received) {
      FirstOnesMissing(num, end, received);
    }
    if NamesMissing(num, off, end, received) {
      MissingAreFirstOnes(num, off, end, received);
    }
  }

  lemma MissingAreFirstOnes(num: int, off: int, end: int, received: set<int>)
    requires NamesMissing(num, off, end, received) && off >= 1
    ensures off == |Range(num, end) - received| && LastOnesReceived(num, end, received)
  {
    RangeSize(num, num + off);
    forall x, y | num <= x < y < end && x in received ensures y in received {
      LaterIsReceived(num, off, end, received, x, y);
    }
  }

  lemma LaterIsReceived(num: int, off: int, end: int, received: set<int>, x: int, y: int)
    requires NamesMissing(num, off, end, received) && num <= x < y < end && x in received
    ensures y in received
  {
    assert x !in Range(num, num + off);
    assert y in Range(num, end) && y !in Range(num, num + off);
  }
}
