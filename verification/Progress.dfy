// Retransfer rounds without loss: request, merge, retransfer, deliver. Each
// empties the requested entries of the ledger and leaves the rest exact
// (controlplane/controlplane.go:398-441, controlplane/controlplane.go:316-332,
// dataplane/dataplane.go:160-205, dataplane/partcontext.go:146-171).
module Progress {
  import opened Utils
  import opened GapLedger
  import opened Reassembly
  import opened Batching
  import opened Merging

  // ------------------------------------------------ delivering to a ledger

  function ArriveAll(l: Ledger, numbers: seq<int>): (r: Ledger)
    requires Parallel(l)
    ensures Parallel(r)
  {
    if |numbers| == 0 then l
    else Arrive(ArriveAll(l, numbers[..|numbers| - 1]), numbers[|numbers| - 1])
  }

  lemma {:induction false} ArriveAllConcat(l: Ledger, a: seq<int>, b: seq<int>)
    requires Parallel(l)
    ensures ArriveAll(l, a + b) == ArriveAll(ArriveAll(l, a), b)
  {
    if |b| == 0 {
      assert a + b == a;
    } else {
      var n := |b| - 1;
      assert (a + b)[..|a + b| - 1] == a + b[..n];
      ArriveAllConcat(l, a, b[..n]);
    }
  }

  lemma {:induction false} RunContinues(arrivals: seq<int>, numbers: seq<int>)
    ensures GapLedger.Run(arrivals + numbers) == ArriveAll(GapLedger.Run(arrivals), numbers)
  {
    if |numbers| == 0 {
      assert arrivals + numbers == arrivals;
    } else {
      var n := |numbers| - 1;
      assert (arrivals + numbers)[..|arrivals + numbers| - 1] == arrivals + numbers[..n];
      RunContinues(arrivals, numbers[..n]);
    }
  }

  // One more number after a run whose result is known.
  lemma ArriveNext(l: Ledger, numbers: seq<int>, s: int, longer: seq<int>, m: Ledger, r: Ledger)
    requires Parallel(l) && Parallel(m) && longer == numbers + [s]
    requires ArriveAll(l, numbers) == m && Arrive(m, s) == r
    ensures ArriveAll(l, longer) == r
  {
    assert longer[..|numbers|] == numbers;
  }

  function WithoutEntry(l: Ledger, k: nat): Ledger
    requires Parallel(l) && k < |l.nums|
  {
    Ledger(l.highest, RemoveFromSliceByIndex(l.nums, k), RemoveFromSliceByIndex(l.offs, k))
  }

  // Ledger l with o left to come in entry k.
  function WithCount(l: Ledger, k: nat, o: int): Ledger
    requires Parallel(l) && k < |l.nums|
  {
    if o == 0 then WithoutEntry(l, k) else l.(offs := l.offs[k := o])
  }

  // A number of entry k is looked up in entry k and counts it down.
  lemma OneOfEntry(l: Ledger, k: nat, o: int, s: int)
    requires Shape(l) && k < |l.nums| && l.nums[k] <= s < l.nums[k] + l.offs[k] && o >= 1
    ensures Arrive(WithCount(l, k, o), s) == WithCount(l, k, o - 1)
  {
    assert EntryInside(l, k);
    assert k + 1 < |l.nums| ==> Apart(l, k, k + 1);
    StartsIncrease(l);
    FloorSearchFinds(s, l.nums, k);
    assert l.offs[k := o][k := o - 1] == l.offs[k := o - 1];
    assert RemoveFromSliceByIndex(l.offs[k := 0], k) == RemoveFromSliceByIndex(l.offs, k);
  }

  // One number more of an entry, of which o are left to come after it.
  lemma DeliverNext(l: Ledger, k: nat, o: nat, s: int, before: seq<int>, m: Ledger)
    returns (numbers: seq<int>, left: Ledger)
    requires Shape(l) && k < |l.nums| && l.nums[k] <= s < l.nums[k] + l.offs[k]
    requires m == WithCount(l, k, o + 1) && ArriveAll(l, before) == m
    ensures numbers == before + [s] && left == WithCount(l, k, o) && ArriveAll(l, numbers) == left
  {
    numbers, left := before + [s], WithCount(l, k, o);
    OneOfEntry(l, k, o + 1, s);
    ArriveNext(l, before, s, numbers, m, left);
  }

  // The first j numbers of an entry, of which o are left to come then, count it
  // down to what is left of it; all of them remove it.
  lemma {:induction false} DeliverEntry(l: Ledger, k: nat, v: int, j: nat, o: nat)
    returns (numbers: seq<int>, left: Ledger)
    requires Shape(l) && k < |l.nums| && v == l.nums[k] && j + o == l.offs[k]
    ensures numbers == EntryNumbers(v, j) && left == WithCount(l, k, o)
    ensures ArriveAll(l, numbers) == left
    decreases j
  {
    if j == 0 {
      numbers, left := DeliverNone(l, k);
    } else {
      var before, m := DeliverEntry(l, k, v, j - 1, o + 1);
      numbers, left := DeliverNext(l, k, o, v + j - 1, before, m);
    }
  }

  lemma DeliverNone(l: Ledger, k: nat) returns (numbers: seq<int>, left: Ledger)
    requires Shape(l) && k < |l.nums|
    ensures numbers == [] && left == WithCount(l, k, l.offs[k]) == l && ArriveAll(l, numbers) == left
  {
    numbers, left := [], l;
    WholeCount(l, k);
  }

  lemma WholeCount(l: Ledger, k: nat)
    requires Shape(l) && k < |l.nums|
    ensures WithCount(l, k, l.offs[k]) == l
  {
    assert EntryInside(l, k);
    assert l.offs[k := l.offs[k]] == l.offs;
  }

  // --------------------------------------- delivering a list of entries

  predicate IsEntry(l: Ledger, v: int, off: int)
    requires Parallel(l)
  {
    exists k :: 0 <= k < |l.nums| && l.nums[k] == v && l.offs[k] == off
  }

  // What the sender has collected are whole entries of the ledger.
  ghost predicate EntriesOf(w: Wanted, l: Ledger)
  {
    && Parallel(l) && Keyed(w)
    && forall i :: 0 <= i < |w.nums| ==> IsEntry(l, w.nums[i], w.offs[i])
  }

  lemma EntriesNamePackets(w: Wanted, l: Ledger, count: int)
    requires EntriesOf(w, l) && Shape(l) && l.highest <= count
    ensures NamesPackets(w.nums, w.offs, count)
  {
    forall i | 0 <= i < |w.nums| ensures 1 <= w.nums[i] && 1 <= w.offs[i] && w.nums[i] + w.offs[i] - 1 <= count {
      assert IsEntry(l, w.nums[i], w.offs[i]);
      var k :| 0 <= k < |l.nums| && l.nums[k] == w.nums[i] && l.offs[k] == w.offs[i];
      assert EntryInside(l, k);
    }
  }

  // The first n entries of a ledger, in order, but for those that start in gone.
  function Keep(l: Ledger, gone: seq<int>, n: nat): (r: Ledger)
    requires Parallel(l) && n <= |l.nums|
    ensures Parallel(r) && r.highest == l.highest
  {
    if n == 0 then Ledger(l.highest, [], [])
    else
      var r := Keep(l, gone, n - 1);
      if l.nums[n - 1] in gone then r
      else Ledger(l.highest, r.nums + [l.nums[n - 1]], r.offs + [l.offs[n - 1]])
  }

  function Without(l: Ledger, gone: seq<int>): (r: Ledger)
    requires Parallel(l)
    ensures Parallel(r) && r.highest == l.highest
  {
    Keep(l, gone, |l.nums|)
  }

  lemma {:induction false} KeepAll(l: Ledger, n: nat)
    requires Parallel(l) && n <= |l.nums|
    ensures Keep(l, [], n) == Ledger(l.highest, l.nums[..n], l.offs[..n])
  {
    if n > 0 {
      KeepAll(l, n - 1);
    }
  }

  // An entry outside the list is kept, with its count.
  lemma {:induction false} KeepHas(l: Ledger, gone: seq<int>, n: nat, k: nat)
    requires Parallel(l) && k < n <= |l.nums| && l.nums[k] !in gone
    ensures IsEntry(Keep(l, gone, n), l.nums[k], l.offs[k])
  {
    var r := Keep(l, gone, n);
    if k == n - 1 {
      assert r.nums[|r.nums| - 1] == l.nums[k] && r.offs[|r.nums| - 1] == l.offs[k];
    } else {
      KeepHas(l, gone, n - 1, k);
      var m := Keep(l, gone, n - 1);
      var i :| 0 <= i < |m.nums| && m.nums[i] == l.nums[k] && m.offs[i] == l.offs[k];
      assert r.nums[i] == l.nums[k] && r.offs[i] == l.offs[k];
    }
  }

  // Whatever is kept was there before, outside the list.
  lemma {:induction false} KeepOnly(l: Ledger, gone: seq<int>, n: nat, i: nat)
    requires Parallel(l) && n <= |l.nums| && i < |Keep(l, gone, n).nums|
    ensures var r := Keep(l, gone, n); IsEntry(l, r.nums[i], r.offs[i]) && r.nums[i] !in gone
  {
    if i < |Keep(l, gone, n - 1).nums| {
      KeepOnly(l, gone, n - 1, i);
    }
  }

  // The entries left are exactly those outside the list, with their counts.
  lemma WithoutIsExact(l: Ledger, gone: seq<int>, v: int, off: int)
    requires Parallel(l)
    ensures IsEntry(Without(l, gone), v, off) <==> IsEntry(l, v, off) && v !in gone
  {
    var r := Without(l, gone);
    if IsEntry(r, v, off) {
      var i :| 0 <= i < |r.nums| && r.nums[i] == v && r.offs[i] == off;
      KeepOnly(l, gone, |l.nums|, i);
    }
    if IsEntry(l, v, off) && v !in gone {
      var k :| 0 <= k < |l.nums| && l.nums[k] == v && l.offs[k] == off;
      KeepHas(l, gone, |l.nums|, k);
    }
  }

  // One more start in the list removes one more entry.
  lemma {:induction false} KeepOneLess(l: Ledger, gone: seq<int>, n: nat, k: nat) returns (i: nat)
    requires Parallel(l) && Increasing(l.nums) && k < n <= |l.nums| && l.nums[k] !in gone
    ensures var r := Keep(l, gone, n);
            i < |r.nums| && r.nums[i] == l.nums[k] && r.offs[i] == l.offs[k]
            && Keep(l, gone + [l.nums[k]], n) == WithoutEntry(r, i)
  {
    var m := Keep(l, gone, n - 1);
    if k == n - 1 {
      i := |m.nums|;
      KeepUnaffected(l, gone, n - 1, l.nums[k]);
      RemoveLast(m.nums, l.nums[k]);
      RemoveLast(m.offs, l.offs[k]);
    } else {
      i := KeepOneLess(l, gone, n - 1, k);
      KeepOneMore(l, gone, n - 1, k, i, m);
    }
  }

  // One entry more behind one that is removed.
  lemma KeepOneMore(l: Ledger, gone: seq<int>, n: nat, k: nat, i: nat, m: Ledger)
    requires Parallel(l) && Increasing(l.nums) && k < n < |l.nums|
    requires m == Keep(l, gone, n) && i < |m.nums| && m.nums[i] == l.nums[k] && m.offs[i] == l.offs[k]
    requires Keep(l, gone + [l.nums[k]], n) == WithoutEntry(m, i)
    ensures var r := Keep(l, gone, n + 1);
            i < |r.nums| && r.nums[i] == l.nums[k] && r.offs[i] == l.offs[k]
            && Keep(l, gone + [l.nums[k]], n + 1) == WithoutEntry(r, i)
  {
    RemoveBeforeLast(m.nums, l.nums[n], i);
    RemoveBeforeLast(m.offs, l.offs[n], i);
  }

  lemma {:induction false} KeepUnaffected(l: Ledger, gone: seq<int>, n: nat, v: int)
    requires Parallel(l) && n <= |l.nums| && v !in l.nums[..n]
    ensures Keep(l, gone + [v], n) == Keep(l, gone, n)
  {
    if n > 0 {
      assert l.nums[..n][n - 1] == l.nums[n - 1];
      assert forall x :: x in l.nums[..n - 1] ==> x in l.nums[..n];
      KeepUnaffected(l, gone, n - 1, v);
    }
  }

  lemma RemoveLast(s: seq<int>, x: int)
    ensures RemoveFromSliceByIndex(s + [x], |s|) == s
  {
  }

  lemma RemoveBeforeLast(s: seq<int>, x: int, i: nat)
    requires i < |s|
    ensures RemoveFromSliceByIndex(s + [x], i) == RemoveFromSliceByIndex(s, i) + [x]
  {
  }

  // Delivering one more entry, after numbers that removed the entries in gone.
  lemma DeliverOneMore(l: Ledger, gone: seq<int>, v: int, off: nat, before: seq<int>)
    requires Shape(l) && IsEntry(l, v, off) && v !in gone && Shape(Without(l, gone))
    requires ArriveAll(l, before) == Without(l, gone)
    ensures ArriveAll(l, before + EntryNumbers(v, off)) == Without(l, gone + [v])
    ensures Shape(Without(l, gone + [v]))
  {
    var k :| 0 <= k < |l.nums| && l.nums[k] == v && l.offs[k] == off;
    var m := Without(l, gone);
    StartsIncrease(l);
    var i := KeepOneLess(l, gone, |l.nums|, k);
    var numbers, left := DeliverEntry(m, i, v, off, 0);
    RemoveKeepsShape(m, i);
    ArriveAllConcat(l, before, numbers);
  }

  // The n-th wanted entry.
  lemma LastWanted(l: Ledger, w: Wanted, count: int, n: nat) returns (v: int, off: nat, gone: seq<int>)
    requires EntriesOf(w, l) && 0 < n <= |w.nums| && GoodUpTo(w.nums, w.offs, count, n)
    ensures IsEntry(l, v, off) && v !in gone && gone == w.nums[..n - 1] && w.nums[..n] == gone + [v]
    ensures RetransferNumbers(w.nums, w.offs, count, n)
         == RetransferNumbers(w.nums, w.offs, count, n - 1) + EntryNumbers(v, off)
  {
    v, off, gone := w.nums[n - 1], w.offs[n - 1], w.nums[..n - 1];
    assert IsEntry(l, w.nums[n - 1], w.offs[n - 1]);
  }

  // Delivering the numbers of any list of entries removes those entries and
  // leaves the others exact and in order.
  lemma {:induction false} DeliverWanted(l: Ledger, w: Wanted, count: int, n: nat)
    requires Shape(l) && EntriesOf(w, l) && n <= |w.nums| && GoodUpTo(w.nums, w.offs, count, n)
    ensures ArriveAll(l, RetransferNumbers(w.nums, w.offs, count, n)) == Without(l, w.nums[..n])
    ensures Shape(Without(l, w.nums[..n]))
  {
    if n == 0 {
      KeepAll(l, |l.nums|);
    } else {
      var v, off, gone := LastWanted(l, w, count, n);
      DeliverWanted(l, w, count, n - 1);
      DeliverOneMore(l, gone, v, off, RetransferNumbers(w.nums, w.offs, count, n - 1));
    }
  }

  // ---------------------------------------------------- one round's request

  // The sender handles the first n packets of a tick.
  function MergeTick(w: Wanted, l: Ledger, info: TickInfo, n: nat): Wanted
    requires Parallel(l) && n <= NumBlocks(|l.nums|)
  {
    if n == 0 then w
    else
      var a := RequestPacket(l, info, n - 1);
      Merge(MergeTick(w, l, info, n - 1), a.missingSequenceNumbers, a.missingSequenceNumberOffsets)
  }

  ghost predicate RequestedBefore(len: nat, n: nat, x: int)
  {
    exists k: nat :: k < n && InBlock(len, k, x)
  }

  // v starts an entry of the first n blocks.
  ghost predicate Asked(l: Ledger, n: nat, v: int)
  {
    exists x :: 0 <= x < |l.nums| && l.nums[x] == v && RequestedBefore(|l.nums|, n, x)
  }

  // A request packet is a stretch of the ledger.
  lemma RequestIsStretch(l: Ledger, info: TickInfo, k: nat, i: nat)
    requires Parallel(l) && k < NumBlocks(|l.nums|) && i < |RequestPacket(l, info, k).missingSequenceNumbers|
    ensures var a := RequestPacket(l, info, k);
            && BlockStart(k) + i < |l.nums| && InBlock(|l.nums|, k, BlockStart(k) + i)
            && a.missingSequenceNumbers[i] == l.nums[BlockStart(k) + i]
            && a.missingSequenceNumberOffsets[i] == l.offs[BlockStart(k) + i]
  {
    BlockInRange(|l.nums|, k);
  }

  // Merging a request adds whole entries of the ledger only.
  lemma MergeKeepsEntries(w: Wanted, l: Ledger, nums: seq<int>, offs: seq<int>)
    requires EntriesOf(w, l) && |nums| == |offs|
    requires forall i :: 0 <= i < |nums| ==> IsEntry(l, nums[i], offs[i])
    ensures EntriesOf(Merge(w, nums, offs), l)
    ensures forall v :: v in Merge(w, nums, offs).nums <==> v in w.nums || v in nums
  {
    var r := Merge(w, nums, offs);
    MergeUpToExtends(w, nums, offs, |nums|);
    forall i | 0 <= i < |r.nums|
      ensures IsEntry(l, r.nums[i], r.offs[i]) && (r.nums[i] in w.nums || r.nums[i] in nums)
    {
      MergeUpToAddsOnly(w, nums, offs, |nums|, i);
    }
    assert forall i :: 0 <= i < |w.nums| ==> r.nums[i] == w.nums[i];
  }

  lemma RequestedByOneMore(len: nat, n: nat, x: int)
    requires n > 0
    ensures RequestedBefore(len, n, x) <==> RequestedBefore(len, n - 1, x) || InBlock(len, n - 1, x)
  {
    if RequestedBefore(len, n, x) {
      var k: nat :| k < n && InBlock(len, k, x);
      assert k == n - 1 || RequestedBefore(len, n - 1, x);
    }
  }

  lemma StretchIsRequested(l: Ledger, info: TickInfo, k: nat, x: int)
    requires Parallel(l) && k < NumBlocks(|l.nums|) && InBlock(|l.nums|, k, x)
    ensures 0 <= x < |l.nums| && l.nums[x] in RequestPacket(l, info, k).missingSequenceNumbers
  {
    BlockInRange(|l.nums|, k);
    assert RequestPacket(l, info, k).missingSequenceNumbers[x - BlockStart(k)] == l.nums[x];
  }

  // The starts and counts of block k, in some order.
  ghost predicate IsBlock(l: Ledger, k: nat, nums: seq<int>, offs: seq<int>)
    requires Parallel(l)
  {
    && |nums| == |offs|
    && (forall i :: 0 <= i < |nums| ==> IsEntry(l, nums[i], offs[i]))
    && (forall u :: u in nums ==> exists x :: 0 <= x < |l.nums| && l.nums[x] == u && InBlock(|l.nums|, k, x))
    && (forall x :: InBlock(|l.nums|, k, x) ==> 0 <= x < |l.nums| && l.nums[x] in nums)
  }

  lemma RequestIsBlock(l: Ledger, info: TickInfo, k: nat)
    requires Parallel(l) && k < NumBlocks(|l.nums|)
    ensures var a := RequestPacket(l, info, k);
            IsBlock(l, k, a.missingSequenceNumbers, a.missingSequenceNumberOffsets)
  {
    var a := RequestPacket(l, info, k);
    forall i | 0 <= i < |a.missingSequenceNumbers|
      ensures IsEntry(l, a.missingSequenceNumbers[i], a.missingSequenceNumberOffsets[i])
    {
      RequestIsStretch(l, info, k, i);
    }
    forall u | u in a.missingSequenceNumbers
      ensures exists x :: 0 <= x < |l.nums| && l.nums[x] == u && InBlock(|l.nums|, k, x)
    {
      var i :| 0 <= i < |a.missingSequenceNumbers| && a.missingSequenceNumbers[i] == u;
      RequestIsStretch(l, info, k, i);
    }
    forall x | InBlock(|l.nums|, k, x) ensures 0 <= x < |l.nums| && l.nums[x] in a.missingSequenceNumbers {
      StretchIsRequested(l, info, k, x);
    }
  }

  lemma AskedByOneMore(l: Ledger, n: nat, v: int, starts: seq<int>, offs: seq<int>)
    requires Parallel(l) && n > 0 && IsBlock(l, n - 1, starts, offs)
    ensures Asked(l, n, v) <==> Asked(l, n - 1, v) || v in starts
  {
    if Asked(l, n, v) {
      var x :| 0 <= x < |l.nums| && l.nums[x] == v && RequestedBefore(|l.nums|, n, x);
      RequestedByOneMore(|l.nums|, n, x);
    }
    if Asked(l, n - 1, v) {
      var x :| 0 <= x < |l.nums| && l.nums[x] == v && RequestedBefore(|l.nums|, n - 1, x);
      RequestedByOneMore(|l.nums|, n, x);
    }
    if v in starts {
      var x :| 0 <= x < |l.nums| && l.nums[x] == v && InBlock(|l.nums|, n - 1, x);
      RequestedByOneMore(|l.nums|, n, x);
    }
  }

  // r is w and exactly the entries of the first n blocks.
  ghost predicate Collected(w: Wanted, r: Wanted, l: Ledger, n: nat)
  {
    EntriesOf(r, l) && forall v :: v in r.nums <==> v in w.nums || Asked(l, n, v)
  }

  lemma CollectOneMore(w: Wanted, m: Wanted, l: Ledger, n: nat, nums: seq<int>, offs: seq<int>)
    requires n > 0 && Collected(w, m, l, n - 1) && IsBlock(l, n - 1, nums, offs)
    ensures Collected(w, Merge(m, nums, offs), l, n)
  {
    MergeKeepsEntries(m, l, nums, offs);
    forall v ensures Asked(l, n, v) <==> Asked(l, n - 1, v) || v in nums {
      AskedByOneMore(l, n, v, nums, offs);
    }
  }

  // The n-th packet of a tick is block n-1.
  lemma TickMergesBlock(w: Wanted, l: Ledger, info: TickInfo, n: nat)
    returns (m: Wanted, nums: seq<int>, offs: seq<int>)
    requires Parallel(l) && 0 < n <= NumBlocks(|l.nums|)
    ensures m == MergeTick(w, l, info, n - 1) && IsBlock(l, n - 1, nums, offs)
    ensures MergeTick(w, l, info, n) == Merge(m, nums, offs)
  {
    var a := RequestPacket(l, info, n - 1);
    m, nums, offs := MergeTick(w, l, info, n - 1), a.missingSequenceNumbers, a.missingSequenceNumberOffsets;
    RequestIsBlock(l, info, n - 1);
  }

  lemma CollectBlock(w: Wanted, l: Ledger, info: TickInfo, n: nat)
    requires Parallel(l) && 0 < n <= NumBlocks(|l.nums|) && Collected(w, MergeTick(w, l, info, n - 1), l, n - 1)
    ensures Collected(w, MergeTick(w, l, info, n), l, n)
  {
    var m, nums, offs := TickMergesBlock(w, l, info, n);
    CollectOneMore(w, m, l, n, nums, offs);
  }

  // Handling the first n packets of a tick collects exactly their entries.
  lemma {:induction false} TickIsCollected(w: Wanted, l: Ledger, info: TickInfo, n: nat)
    requires EntriesOf(w, l) && n <= NumBlocks(|l.nums|)
    ensures Collected(w, MergeTick(w, l, info, n), l, n)
  {
    if n > 0 {
      TickIsCollected(w, l, info, n - 1);
      CollectBlock(w, l, info, n);
    }
  }

  // What a whole tick makes the sender send again.
  ghost function RoundNumbers(w: Wanted, l: Ledger, info: TickInfo, count: int): (r: seq<int>)
    requires Shape(l) && l.highest <= count && EntriesOf(w, l)
  {
    var n := NumBlocks(|l.nums|);
    var r := MergeTick(w, l, info, n);
    TickIsCollected(w, l, info, n);
    EntriesNamePackets(r, l, count);
    RetransferNumbers(r.nums, r.offs, count, |r.nums|)
  }

  // A round delivered in full removes the requested entries, at least 100 of
  // them or all, leaves the rest exact and in order, and empties the ledger
  // when it had at most 200 entries.
  lemma RoundShrinksLedger(w: Wanted, l: Ledger, info: TickInfo, count: int)
    requires Shape(l) && l.highest <= count && EntriesOf(w, l)
    ensures var gone := MergeTick(w, l, info, NumBlocks(|l.nums|)).nums;
            && ArriveAll(l, RoundNumbers(w, l, info, count)) == Without(l, gone)
            && (forall v :: v in gone <==> v in w.nums || Asked(l, NumBlocks(|l.nums|), v))
            && |Without(l, gone).nums| <= |l.nums| - Min(100, |l.nums|)
            && (|l.nums| <= 200 ==> |Without(l, gone).nums| == 0)
  {
    var n := NumBlocks(|l.nums|);
    var r := MergeTick(w, l, info, n);
    TickIsCollected(w, l, info, n);
    EntriesNamePackets(r, l, count);
    assert r.nums[..|r.nums|] == r.nums;
    DeliverWanted(l, r, count, |r.nums|);
    BlockStartDoubles(0);
    forall x | 0 <= x < Min(100, |l.nums|) ensures l.nums[x] in r.nums {
      assert InBlock(|l.nums|, 0, x);
      assert RequestedBefore(|l.nums|, n, x) && Asked(l, n, l.nums[x]);
    }
    KeepFew(l, r.nums, |l.nums|, Min(100, |l.nums|));
    if |l.nums| <= 200 {
      BlocksCoverExactlyUpTo200(|l.nums|);
      forall x | 0 <= x < |l.nums| ensures l.nums[x] in r.nums {
        assert Requested(|l.nums|, x);
        assert RequestedBefore(|l.nums|, n, x) && Asked(l, n, l.nums[x]);
      }
      KeepFew(l, r.nums, |l.nums|, |l.nums|);
    }
  }

  lemma {:induction false} KeepFew(l: Ledger, gone: seq<int>, n: nat, m: nat)
    requires Parallel(l) && n <= |l.nums| && m <= |l.nums|
    requires forall x :: 0 <= x < m ==> l.nums[x] in gone
    ensures |Keep(l, gone, n).nums| <= n - Min(m, n)
  {
    if n > 0 {
      KeepFew(l, gone, n - 1, m);
    }
  }

  // ----------------------------------------- nothing is asked for that came

  ghost predicate RangeFresh(v: int, off: int, arrivals: seq<int>)
  {
    forall x :: v <= x < v + off ==> x !in arrivals
  }

  // Each entry names exactly numbers that have not arrived.
  ghost predicate AllFresh(l: Ledger, arrivals: seq<int>)
    requires Parallel(l)
  {
    forall k :: 0 <= k < |l.nums| ==> RangeFresh(l.nums[k], l.offs[k], arrivals)
  }

  // In an increasing first pass every skipped number is named by an entry that
  // names nothing else.
  lemma {:induction false} FirstPassIsExact(arrivals: seq<int>)
    requires Increasing(arrivals) && Positive(arrivals)
    ensures AllFresh(GapLedger.Run(arrivals), arrivals) && NoRepeats(arrivals)
    ensures GapLedger.Run(arrivals).highest == if |arrivals| == 0 then 0 else arrivals[|arrivals| - 1]
  {
    if |arrivals| > 0 {
      var n := |arrivals| - 1;
      var l := GapLedger.Run(arrivals[..n]);
      FirstPassIsExact(arrivals[..n]);
      ShapeOfRun(arrivals[..n]);
      assert n > 0 ==> arrivals[n - 1] < arrivals[n];
      assert arrivals[n] > l.highest;
      GrowStaysFresh(l, arrivals[..n], arrivals[n], arrivals);
      ArriveKeepsShape(l, arrivals[n]);
    }
  }

  lemma GrowStaysFresh(l: Ledger, arrivals: seq<int>, s: int, all: seq<int>)
    requires Shape(l) && AllFresh(l, arrivals) && s > l.highest && all == arrivals + [s]
    requires forall k :: 0 <= k < |arrivals| ==> arrivals[k] <= l.highest
    ensures AllFresh(Arrive(l, s), all)
  {
    forall k | 0 <= k < |l.nums| ensures RangeFresh(l.nums[k], l.offs[k], all) {
      assert EntryInside(l, k) && RangeFresh(l.nums[k], l.offs[k], arrivals);
    }
    if s > l.highest + 1 {
      OpenKeepsShape(l, s);
    }
  }

  lemma {:induction false} AppendFreshRange(arrivals: seq<int>, v: int, off: nat)
    requires NoRepeats(arrivals) && RangeFresh(v, off, arrivals)
    ensures NoRepeats(arrivals + EntryNumbers(v, off))
  {
    var r := arrivals + EntryNumbers(v, off);
    forall i, j | 0 <= i < j < |r| ensures r[i] != r[j] {
      if i < |arrivals| <= j {
        assert r[i] in arrivals;
      }
    }
  }

  // Different entries name different numbers.
  lemma EntriesNameApart(l: Ledger, v: int, off: int, v': int, off': int, x: int)
    requires Shape(l) && IsEntry(l, v, off) && IsEntry(l, v', off') && v != v'
    requires v <= x < v + off
    ensures !(v' <= x < v' + off')
  {
    var i :| 0 <= i < |l.nums| && l.nums[i] == v && l.offs[i] == off;
    var j :| 0 <= j < |l.nums| && l.nums[j] == v' && l.offs[j] == off';
    if i < j {
      assert Apart(l, i, j);
    } else if j < i {
      assert Apart(l, j, i);
    }
  }

  // An entry that is not among the first n wanted ones shares no number with them.
  lemma {:induction false} WantedApart(l: Ledger, w: Wanted, count: int, n: nat, v: int, off: int)
    requires Shape(l) && EntriesOf(w, l) && NamesPackets(w.nums, w.offs, count) && n <= |w.nums|
    requires IsEntry(l, v, off) && v !in w.nums[..n]
    ensures RangeFresh(v, off, RetransferNumbers(w.nums, w.offs, count, n))
  {
    if n > 0 {
      var u, o := w.nums[n - 1], w.offs[n - 1];
      assert w.nums[..n] == w.nums[..n - 1] + [u];
      WantedApart(l, w, count, n - 1, v, off);
      assert IsEntry(l, u, o);
      forall x | v <= x < v + off ensures x !in EntryNumbers(u, o) {
        EntriesNameApart(l, v, off, u, o, x);
      }
    }
  }

  lemma {:induction false} WantedNoRepeats(l: Ledger, arrivals: seq<int>, w: Wanted, count: int, n: nat)
    requires Shape(l) && AllFresh(l, arrivals) && NoRepeats(arrivals)
    requires EntriesOf(w, l) && NamesPackets(w.nums, w.offs, count) && n <= |w.nums|
    ensures NoRepeats(arrivals + RetransferNumbers(w.nums, w.offs, count, n))
  {
    if n == 0 {
      assert arrivals + [] == arrivals;
    } else {
      var u, o := w.nums[n - 1], w.offs[n - 1];
      var before := RetransferNumbers(w.nums, w.offs, count, n - 1);
      WantedNoRepeats(l, arrivals, w, count, n - 1);
      assert IsEntry(l, u, o);
      WantedApart(l, w, count, n - 1, u, o);
      EntryIsFresh(l, arrivals, u, o);
      AppendFreshRange(arrivals + before, u, o);
      assert arrivals + (before + EntryNumbers(u, o)) == arrivals + before + EntryNumbers(u, o);
    }
  }

  lemma EntryIsFresh(l: Ledger, arrivals: seq<int>, v: int, off: int)
    requires Parallel(l) && AllFresh(l, arrivals) && IsEntry(l, v, off)
    ensures RangeFresh(v, off, arrivals)
  {
  }

  // A round asks only for numbers that have not arrived, and for each of them
  // once; what stays in the ledger is still exact.
  lemma RoundStaysExact(arrivals: seq<int>, l: Ledger, w: Wanted, info: TickInfo, count: int)
    requires Shape(l) && l.highest <= count && EntriesOf(w, l) && AllFresh(l, arrivals) && NoRepeats(arrivals)
    ensures var numbers := RoundNumbers(w, l, info, count);
            && NoRepeats(arrivals + numbers)
            && AllFresh(ArriveAll(l, numbers), arrivals + numbers)
  {
    var r := MergeTick(w, l, info, NumBlocks(|l.nums|));
    TickIsCollected(w, l, info, NumBlocks(|l.nums|));
    EntriesNamePackets(r, l, count);
    RoundShrinksLedger(w, l, info, count);
    WantedNoRepeats(l, arrivals, r, count, |r.nums|);
    RestStaysFresh(arrivals, l, r, count);
  }

  lemma RestStaysFresh(arrivals: seq<int>, l: Ledger, r: Wanted, count: int)
    requires Shape(l) && AllFresh(l, arrivals) && EntriesOf(r, l) && NamesPackets(r.nums, r.offs, count)
    ensures AllFresh(Without(l, r.nums), arrivals + RetransferNumbers(r.nums, r.offs, count, |r.nums|))
  {
    var m, numbers := Without(l, r.nums), RetransferNumbers(r.nums, r.offs, count, |r.nums|);
    forall i | 0 <= i < |m.nums| ensures RangeFresh(m.nums[i], m.offs[i], arrivals + numbers) {
      KeepOnly(l, r.nums, |l.nums|, i);
      EntryIsFresh(l, arrivals, m.nums[i], m.offs[i]);
      assert r.nums[..|r.nums|] == r.nums;
      WantedApart(l, r, count, |r.nums|, m.nums[i], m.offs[i]);
    }
  }

  // -------------------------------------------------------- many rounds

  const NOTHING := Wanted([], [])

  // No number came twice, and the ledger names exactly what has not come.
  ghost predicate Exact(arrivals: seq<int>)
  {
    NoRepeats(arrivals) && Positive(arrivals) && AllFresh(GapLedger.Run(arrivals), arrivals)
  }

  function EntriesLeft(arrivals: seq<int>): nat
  {
    |GapLedger.Run(arrivals).nums|
  }

  // The arrivals after one more lossless round.
  ghost function OneRound(arrivals: seq<int>, tick: TickInfo): seq<int>
  {
    var l := GapLedger.Run(arrivals);
    ShapeOfRun(arrivals);
    arrivals + RoundNumbers(NOTHING, l, tick, l.highest)
  }

  // The arrivals after a first pass and one lossless round for each tick.
  ghost function AfterRounds(first: seq<int>, ticks: seq<TickInfo>): seq<int>
  {
    if |ticks| == 0 then first
    else OneRound(AfterRounds(first, ticks[..|ticks| - 1]), ticks[|ticks| - 1])
  }

  lemma OneRoundShrinks(p: seq<int>, tick: TickInfo)
    requires Exact(p)
    ensures Exact(OneRound(p, tick))
    ensures GapLedger.Run(OneRound(p, tick)).highest == GapLedger.Run(p).highest
    ensures EntriesLeft(OneRound(p, tick)) <= EntriesLeft(p) - Min(100, EntriesLeft(p))
  {
    var l := GapLedger.Run(p);
    ShapeOfRun(p);
    RoundStaysExact(p, l, NOTHING, tick, l.highest);
    RoundShrinksLedger(NOTHING, l, tick, l.highest);
    RunContinues(p, RoundNumbers(NOTHING, l, tick, l.highest));
  }

  // Every round removes at least 100 entries, or all that are left.
  lemma {:induction false} RoundsShrink(first: seq<int>, ticks: seq<TickInfo>)
    requires Exact(first)
    ensures Exact(AfterRounds(first, ticks))
    ensures GapLedger.Run(AfterRounds(first, ticks)).highest == GapLedger.Run(first).highest
    ensures EntriesLeft(AfterRounds(first, ticks)) <= EntriesLeft(first) - 100 * |ticks|
            || EntriesLeft(AfterRounds(first, ticks)) == 0
  {
    if |ticks| > 0 {
      var n := |ticks| - 1;
      RoundsShrink(first, ticks[..n]);
      OneRoundShrinks(AfterRounds(first, ticks[..n]), ticks[n]);
    }
  }

  // Nothing left to ask for means that each number came exactly once.
  lemma ExactAndEmptyIsComplete(all: seq<int>, count: nat)
    requires Exact(all) && EntriesLeft(all) == 0 && GapLedger.Run(all).highest == count
    ensures Elements(all) == Range(1, count + 1) && |all| == count
    ensures GapLedger.Run(all) == Ledger(count, [], [])
  {
    LedgerRefinesReceivedSet(all);
    EmptyMeansComplete(GapLedger.Run(all), GapEnds(all), Elements(all));
    Pigeonhole(all);
    RangeSize(1, count + 1);
  }

  // After an in-order first pass, ceil(L/100) lossless rounds complete the part
  // exactly when the last packet was not lost, where L is the length of the
  // ledger. Each number has then arrived once.
  lemma RoundsComplete(first: seq<int>, count: nat, ticks: seq<TickInfo>)
    requires Increasing(first) && Positive(first) && forall k :: 0 <= k < |first| ==> first[k] <= count
    requires |ticks| >= CeilDiv(EntriesLeft(first), 100)
    ensures var all := AfterRounds(first, ticks);
            var last := if |first| == 0 then 0 else first[|first| - 1];
            && NoRepeats(all) && Exact(all)
            && (Elements(all) == Range(1, count + 1) <==> last == count)
            && (last == count ==> |all| == count && GapLedger.Run(all) == Ledger(count, [], []))
  {
    var all := AfterRounds(first, ticks);
    FirstPassIsExact(first);
    RoundsShrink(first, ticks);
    CeilDivIsCeiling(EntriesLeft(first), 100);
    if GapLedger.Run(all).highest == count {
      ExactAndEmptyIsComplete(all, count);
    } else {
      ShapeOfRun(all);
      assert count in Range(1, count + 1) && count !in Elements(all);
    }
  }
}
