// How the sender collects the entries of request packets until its next
// retransfer pass (controlplane/controlplane.go:316-332).
module Merging {
  import opened Utils

  datatype Wanted = Wanted(nums: seq<int>, offs: seq<int>)

  function AddEntry(w: Wanted, v: int, off: int): Wanted
  {
    if v in w.nums then w else Wanted(w.nums + [v], w.offs + [off])
  }

  // The first n entries of a request, in order.
  function MergeUpTo(w: Wanted, nums: seq<int>, offs: seq<int>, n: nat): Wanted
    requires n <= |nums| <= |offs|
  {
    if n == 0 then w else AddEntry(MergeUpTo(w, nums, offs, n - 1), nums[n - 1], offs[n - 1])
  }

  function Merge(w: Wanted, nums: seq<int>, offs: seq<int>): Wanted
    requires |nums| <= |offs|
  {
    MergeUpTo(w, nums, offs, |nums|)
  }

  // The same for lists of any length. panicked: a start that is not collected
  // yet has no offset, which ends the program.
  datatype Merged = Merged(w: Wanted, panicked: bool)

  function TryMerge(w: Wanted, nums: seq<int>, offs: seq<int>, n: nat): Merged
    requires n <= |nums|
  {
    if n == 0 then Merged(w, false)
    else
      var m := TryMerge(w, nums, offs, n - 1);
      if m.panicked || nums[n - 1] in m.w.nums then m
      else if n - 1 >= |offs| then Merged(m.w, true)
      else Merged(AddEntry(m.w, nums[n - 1], offs[n - 1]), false)
  }

  lemma {:induction false} PairedListsMerge(w: Wanted, nums: seq<int>, offs: seq<int>, n: nat)
    requires n <= |nums| <= |offs|
    ensures TryMerge(w, nums, offs, n) == Merged(MergeUpTo(w, nums, offs, n), false)
  {
    if n > 0 {
      PairedListsMerge(w, nums, offs, n - 1);
    }
  }

  lemma {:induction false} PanicStays(w: Wanted, nums: seq<int>, offs: seq<int>, i: nat, n: nat)
    requires i <= n <= |nums| && TryMerge(w, nums, offs, i).panicked
    ensures TryMerge(w, nums, offs, n) == TryMerge(w, nums, offs, i)
  {
    if i < n {
      PanicStays(w, nums, offs, i, n - 1);
    }
  }

  predicate Unpaired(w: Wanted, nums: seq<int>, offs: seq<int>, k: nat)
    requires |offs| <= k < |nums|
  {
    nums[k] !in w.nums && nums[k] !in nums[..|offs|]
  }

  // A request panics exactly when a start beyond the last offset is neither
  // collected before nor another start of the request's leading part.
  lemma {:induction false} PanicsExactlyOnMissingOffset(w: Wanted, nums: seq<int>, offs: seq<int>, n: nat)
    requires n <= |nums| && |offs| <= n
    ensures TryMerge(w, nums, offs, n).panicked
       <==> exists k :: |offs| <= k < n && Unpaired(w, nums, offs, k)
    ensures !TryMerge(w, nums, offs, n).panicked ==>
              TryMerge(w, nums, offs, n).w == TryMerge(w, nums, offs, |offs|).w
  {
    PairedPrefix(w, nums, offs, |offs|);
    if n > |offs| {
      PanicsExactlyOnMissingOffset(w, nums, offs, n - 1);
      var m := TryMerge(w, nums, offs, n - 1);
      assert TryMerge(w, nums, offs, n)
          == if m.panicked || nums[n - 1] in m.w.nums then m else Merged(m.w, true);
      var v := nums[n - 1];
      assert v in TryMerge(w, nums, offs, |offs|).w.nums <==> v in w.nums || v in nums[..|offs|];
      assert Unpaired(w, nums, offs, n - 1) == (v !in w.nums && v !in nums[..|offs|]);
      if m.panicked {
        var k :| |offs| <= k < n - 1 && Unpaired(w, nums, offs, k);
      }
    }
  }

  // Up to the last offset nothing panics, and what is collected are the earlier
  // starts and those of the request.
  lemma {:induction false} PairedPrefix(w: Wanted, nums: seq<int>, offs: seq<int>, n: nat)
    requires n <= |nums| && n <= |offs|
    ensures !TryMerge(w, nums, offs, n).panicked
    ensures forall v :: v in TryMerge(w, nums, offs, n).w.nums <==> v in w.nums || v in nums[..n]
  {
    if n > 0 {
      PairedPrefix(w, nums, offs, n - 1);
      assert nums[..n] == nums[..n - 1] + [nums[n - 1]];
    }
  }

  ghost predicate Keyed(w: Wanted)
  {
    |w.nums| == |w.offs| && NoRepeats(w.nums)
  }

  // Earlier entries stay, in place, and every start of the request is present.
  lemma {:induction false} MergeUpToExtends(w: Wanted, nums: seq<int>, offs: seq<int>, n: nat)
    requires n <= |nums| <= |offs| && Keyed(w)
    ensures var r := MergeUpTo(w, nums, offs, n);
            && Keyed(r) && w.nums <= r.nums && w.offs <= r.offs
            && (forall k :: 0 <= k < n ==> nums[k] in r.nums)
  {
    if n > 0 {
      MergeUpToExtends(w, nums, offs, n - 1);
    }
  }

  // Each entry of the result was there before or is an entry of the request.
  lemma {:induction false} MergeUpToAddsOnly(w: Wanted, nums: seq<int>, offs: seq<int>, n: nat, i: nat)
    requires n <= |nums| <= |offs| && |w.nums| == |w.offs|
    ensures |MergeUpTo(w, nums, offs, n).nums| == |MergeUpTo(w, nums, offs, n).offs|
    ensures var r := MergeUpTo(w, nums, offs, n);
            |w.nums| <= i < |r.nums| ==> exists k :: 0 <= k < n && r.nums[i] == nums[k] && r.offs[i] == offs[k]
    ensures var r := MergeUpTo(w, nums, offs, n);
            i < |w.nums| ==> i < |r.nums| && r.nums[i] == w.nums[i] && r.offs[i] == w.offs[i]
  {
    if n > 0 {
      MergeUpToAddsOnly(w, nums, offs, n - 1, i);
    }
  }

  lemma {:induction false} MergePresent(w: Wanted, nums: seq<int>, offs: seq<int>, n: nat)
    requires n <= |nums| <= |offs|
    requires forall k :: 0 <= k < n ==> nums[k] in w.nums
    ensures MergeUpTo(w, nums, offs, n) == w
  {
    if n > 0 {
      MergePresent(w, nums, offs, n - 1);
    }
  }

  // A request delivered twice leaves what it left the first time.
  lemma MergeIsIdempotent(w: Wanted, nums: seq<int>, offs: seq<int>)
    requires |nums| <= |offs| && Keyed(w)
    ensures Merge(Merge(w, nums, offs), nums, offs) == Merge(w, nums, offs)
  {
    MergeUpToExtends(w, nums, offs, |nums|);
    MergePresent(Merge(w, nums, offs), nums, offs, |nums|);
  }
}
