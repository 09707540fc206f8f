// Integer and slice helpers of the transport (utils/utils.go).
module Utils {

  function Min(x: int, y: int): (r: int)
    ensures r <= x && r <= y && (r == x || r == y)
  {
    if x > y then y else x
  }

  // Go's integer division truncates toward zero.
  function TruncDiv(x: int, y: int): int
    requires y != 0
  {
    if x >= 0 then x / y else -((-x) / y)
  }

  function Abs(x: int): nat
  {
    if x < 0 then -x else x
  }

  lemma TruncDivBySize(x: int, y: int, q: int)
    requires y != 0 && q == Abs(x) / Abs(y)
    ensures TruncDiv(x, y) == if (x >= 0) == (y > 0) then q else -q
  {
    if y < 0 {
      QuotientOfNegated(Abs(x), Abs(y), y);
    }
  }

  lemma QuotientOfNegated(a: nat, b: int, y: int)
    requires b >= 1 && y == -b
    ensures a / y + a / b == 0
  {
    assert a == y * (a / y) + a % y;
    assert a == b * (a / b) + a % b;
    OppositeQuotients(a / y, a / b, b, y, a, a % y, a % b);
  }

  lemma OppositeQuotients(p: int, q: int, b: int, y: int, a: int, r: int, s: int)
    requires b >= 1 && y == -b && a == y * p + r && a == b * q + s && 0 <= r < b && 0 <= s < b
    ensures p == -q
  {
    var t := p + q;
    assert b * t == b * p + b * q && y * p == -(b * p);
    if t >= 1 {
      ScaleMonotone(1, t, b);
    } else if t <= -1 {
      ScaleMonotone(t, -1, b);
    }
  }

  lemma QuotientBounds(a: nat, b: int, q: int)
    requires b >= 1 && q == a / b
    ensures 0 <= q && q * b <= a < (q + 1) * b
  {
    assert a == b * q + a % b;
    assert (q + 1) * b == q * b + b;
  }

  // Whatever the signs: the size of the quotient is rounded down, and its sign is
  // that of the true quotient.
  lemma TruncDivTruncates(x: int, y: int)
    requires y != 0
    ensures var q := TruncDiv(x, y);
            && Abs(q) * Abs(y) <= Abs(x) < (Abs(q) + 1) * Abs(y)
            && (q != 0 ==> (q > 0 <==> (x > 0 <==> y > 0)))
  {
    var q := Abs(x) / Abs(y);
    TruncDivBySize(x, y, q);
    QuotientBounds(Abs(x), Abs(y), q);
    assert Abs(TruncDiv(x, y)) == q;
  }

  // a: |x|, b: |y|, q: the quotient's size.
  lemma SizeAtLeast(a: nat, b: int, q: nat, k: int)
    requires b >= 1 && k >= 1 && q * b <= a < (q + 1) * b
    ensures q >= k <==> a >= k * b
  {
    if q >= k {
      ScaleMonotone(k, q, b);
    } else {
      ScaleMonotone(q + 1, k, b);
    }
  }

  lemma NegatedScale(k: int, y: int)
    ensures k * (-y) == -(k * y)
  {
  }

  // A truncated quotient reaches a positive bound exactly when the true one does.
  lemma TruncDivAtLeast(x: int, y: int, k: int)
    requires y != 0 && k >= 1
    ensures TruncDiv(x, y) >= k <==> if y > 0 then x >= k * y else x <= k * y
  {
    var q, ky := TruncDiv(x, y), k * y;
    TruncDivTruncates(x, y);
    SizeAtLeast(Abs(x), Abs(y), Abs(q), k);
    NegatedScale(k, y);
    ScaleMonotone(1, k, Abs(y));
    assert k * Abs(y) == Abs(ky);
  }

  // The float64 quotient is taken over the reals.
  function CeilForceInt(x: int, y: int): (r: int)
    requires y != 0
    ensures r as real - 1.0 < x as real / y as real <= r as real
  {
    var res := TruncDiv(x, y);
    TruncDivIsNearest(x, y);
    if x as real / y as real > res as real then res + 1 else res
  }

  lemma CancelScale(e: real, y: real)
    requires y > 0.0 && -y < e * y < y
    ensures -1.0 < e < 1.0
  {
  }

  // A multiple of y that misses x by less than y is the quotient to within one.
  lemma NearestMultiple(x: real, q: real, y: real)
    requires y != 0.0
    requires -y < x - q * y < y || y < x - q * y < -y
    ensures q - 1.0 < x / y < q + 1.0
  {
    var f := x / y;
    assert f * y == x;
    var e := f - q;
    assert e * y == x - q * y;
    if y > 0.0 {
      CancelScale(e, y);
    } else {
      assert e * (-y) == -(e * y);
      CancelScale(e, -y);
    }
  }

  lemma IntProduct(a: int, b: int)
    ensures (a * b) as real == a as real * b as real
  {
  }

  lemma TruncDivRest(x: int, y: int)
    requires y != 0
    ensures var r := x - TruncDiv(x, y) * y;
            -y < r < y || y < r < -y
  {
    if x >= 0 {
      assert x == y * (x / y) + x % y;
    } else {
      assert -x == y * ((-x) / y) + (-x) % y;
    }
  }

  // The truncated quotient is off by less than one.
  lemma TruncDivIsNearest(x: int, y: int)
    requires y != 0
    ensures var q, f := TruncDiv(x, y) as real, x as real / y as real;
            q - 1.0 < f < q + 1.0
  {
    var q := TruncDiv(x, y);
    TruncDivRest(x, y);
    IntProduct(q, y);
    NearestMultiple(x as real, q as real, y as real);
  }

  lemma RatioExceeds(x: real, q: real, y: real)
    requires y > 0.0
    ensures x / y > q <==> x > q * y
  {
    var f := x / y;
    assert f * y == x;
    assert (f - q) * y == x - q * y;
  }

  // On sizes, the rounded quotient is the usual integer ceiling.
  lemma CeilForceIntIsCeiling(x: nat, y: int)
    requires y >= 1
    ensures var r := CeilForceInt(x, y);
            r >= 0 && (r - 1) * y < x <= r * y
  {
    var q := x / y;
    assert x == y * q + x % y;
    RatioExceeds(x as real, q as real, y as real);
    IntProduct(q, y);
    assert (q - 1) * y == q * y - y && (q + 1) * y == q * y + y;
  }

  // The same, in integers.
  function CeilDiv(x: nat, y: int): nat
    requires y >= 1
  {
    (x + y - 1) / y
  }

  lemma CeilDivIsCeiling(x: nat, y: int)
    requires y >= 1
    ensures (CeilDiv(x, y) - 1) * y < x <= CeilDiv(x, y) * y
  {
    var r := CeilDiv(x, y);
    assert x + y - 1 == y * r + (x + y - 1) % y;
    assert (r - 1) * y == r * y - y;
  }

  lemma CeilForceIntIsCeilDiv(x: nat, y: int)
    requires y >= 1
    ensures CeilForceInt(x, y) == CeilDiv(x, y)
  {
    var r, q := CeilForceInt(x, y), CeilDiv(x, y);
    CeilForceIntIsCeiling(x, y);
    CeilDivIsCeiling(x, y);
    CeilingIsUnique(x, y, r, q);
    CeilingIsUnique(x, y, q, r);
  }

  lemma CeilingIsUnique(x: nat, y: int, a: int, b: int)
    requires y >= 1 && (a - 1) * y < x && x <= b * y
    ensures a <= b
  {
    if b <= a - 1 {
      ScaleMonotone(b, a - 1, y);
    }
  }

  lemma ScaleMonotone(i: int, j: int, w: int)
    requires i <= j && 0 <= w
    ensures i * w <= j * w
  {
  }

  // ---------------------------------------------------------------- Sum

  function Total(s: seq<int>): int
  {
    if |s| == 0 then 0 else Total(s[..|s| - 1]) + s[|s| - 1]
  }

  method Sum(values: seq<int>) returns (result: int)
    ensures result == Total(values)
  {
    result := 0;
    for k := 0 to |values|
      invariant result == Total(values[..k])
    {
      assert values[..k + 1][..k] == values[..k];
      result := result + values[k];
    }
    assert values[..|values|] == values;
  }

  lemma TotalOne(x: int)
    ensures Total([x]) == x
  {
    assert [x][..0] == [];
  }

  lemma {:induction false} TotalConcat(a: seq<int>, b: seq<int>)
    ensures Total(a + b) == Total(a) + Total(b)
  {
    if |b| == 0 {
      assert a + b == a;
    } else {
      assert (a + b)[..|a + b| - 1] == a + b[..|b| - 1];
      TotalConcat(a, b[..|b| - 1]);
    }
  }

  lemma {:induction false} TotalUpdate(s: seq<int>, k: int, v: int)
    requires 0 <= k < |s|
    ensures Total(s[k := v]) == Total(s) - s[k] + v
  {
    var t := s[k := v];
    if k == |s| - 1 {
      assert t[..k] == s[..k];
    } else {
      assert t[..|s| - 1] == s[..|s| - 1][k := v];
      TotalUpdate(s[..|s| - 1], k, v);
    }
  }

  // ------------------------------------------------- IndexOf, IndexOfMin

  // k is the result of looking for e: its first position, or -1.
  ghost predicate IsFirstIndex(e: int, data: seq<int>, k: int)
  {
    if e in data then 0 <= k < |data| && data[k] == e && e !in data[..k] else k == -1
  }

  method IndexOf(element: int, data: seq<int>) returns (k: int)
    ensures IsFirstIndex(element, data, k)
  {
    for i := 0 to |data|
      invariant element !in data[..i]
    {
      if element == data[i] {
        return i;
      }
    }
    return -1;
  }

  // The test that ends the scan of IndexOfMin at position k.
  predicate Hits(e: int, data: seq<int>, k: int)
    requires 0 <= k < |data|
  {
    || e == data[k]
    || (e > data[k] && (k == |data| - 1 || e < data[k + 1]))
  }

  function FirstHit(e: int, data: seq<int>, from: nat): (r: int)
    ensures r == -1 || from <= r < |data|
    decreases |data| - from
  {
    if from >= |data| then -1
    else if Hits(e, data, from) then from
    else FirstHit(e, data, from + 1)
  }

  // The scan stops at the first position that passes the test.
  lemma {:induction false} FirstHitIsFirst(e: int, data: seq<int>, from: nat)
    ensures var r := FirstHit(e, data, from);
            && (r >= 0 ==> Hits(e, data, r))
            && (forall k :: from <= k < (if r >= 0 then r else |data|) ==> !Hits(e, data, k))
    decreases |data| - from
  {
    if from < |data| && !Hits(e, data, from) {
      FirstHitIsFirst(e, data, from + 1);
    }
  }

  method IndexOfMin(element: int, data: seq<int>) returns (r: int)
    ensures r == FirstHit(element, data, 0)
  {
    for k := 0 to |data|
      invariant FirstHit(element, data, 0) == FirstHit(element, data, k)
    {
      if element == data[k] {
        return k;
      }
      if element > data[k] && |data| == 1 {
        return k;
      }
      if element > data[k] && k == |data| - 1 {
        return k;
      }
      if element > data[k] && k < |data| - 1 && element < data[k + 1] {
        return k;
      }
    }
    return -1;
  }

  ghost predicate Increasing(data: seq<int>)
  {
    forall i, j :: 0 <= i < j < |data| ==> data[i] < data[j]
  }

  // On an increasing list the scan is floor search: the last position whose
  // value is at most e, and -1 exactly when every value exceeds e.
  lemma FloorSearch(e: int, data: seq<int>)
    requires Increasing(data)
    ensures var r := FirstHit(e, data, 0);
            if r >= 0
            then data[r] <= e && forall k :: r < k < |data| ==> e < data[k]
            else forall k :: 0 <= k < |data| ==> e < data[k]
  {
    var r := FirstHit(e, data, 0);
    FirstHitIsFirst(e, data, 0);
    if r < 0 {
      forall k | 0 <= k < |data| ensures e < data[k] {
        NoHitMeansAllLarger(e, data, k);
      }
    }
  }

  lemma {:induction false} NoHitMeansAllLarger(e: int, data: seq<int>, k: int)
    requires 0 <= k < |data|
    requires forall i :: 0 <= i < |data| ==> !Hits(e, data, i)
    ensures e < data[k]
    decreases |data| - k
  {
    assert !Hits(e, data, k);
    if k + 1 < |data| {
      NoHitMeansAllLarger(e, data, k + 1);
    }
  }

  // The floor position is the only one whose interval holds e.
  lemma FloorSearchFinds(e: int, data: seq<int>, k: int)
    requires Increasing(data)
    requires 0 <= k < |data| && data[k] <= e
    requires k + 1 < |data| ==> e < data[k + 1]
    ensures FirstHit(e, data, 0) == k
  {
    FloorSearch(e, data);
  }

  // append(s[:index], s[index+1:]...)
  function RemoveFromSliceByIndex<T>(s: seq<T>, index: int): seq<T>
    requires 0 <= index < |s|
  {
    s[..index] + s[index + 1..]
  }

  lemma SplitAt<T>(s: seq<T>, k: int)
    requires 0 <= k < |s|
    ensures s == s[..k] + [s[k]] + s[k + 1..]
  {
  }

  lemma TotalOfThree(a: seq<int>, x: int, b: seq<int>)
    ensures Total(a + [x] + b) == Total(a) + x + Total(b)
  {
    TotalConcat(a + [x], b);
    TotalConcat(a, [x]);
    TotalOne(x);
  }

  lemma TotalRemove(s: seq<int>, k: int)
    requires 0 <= k < |s|
    ensures Total(RemoveFromSliceByIndex(s, k)) == Total(s) - s[k]
  {
    SplitAt(s, k);
    TotalOfThree(s[..k], s[k], s[k + 1..]);
    TotalConcat(s[..k], s[k + 1..]);
  }

  // ------------------------------------------------------- finite sets

  ghost function Elements(s: seq<int>): set<int>
  {
    set i | 0 <= i < |s| :: s[i]
  }

  ghost predicate NoRepeats(s: seq<int>)
  {
    forall i, j :: 0 <= i < j < |s| ==> s[i] != s[j]
  }

  ghost function Range(lo: int, hi: int): (r: set<int>)
    ensures forall x :: x in r <==> lo <= x < hi
    decreases hi - lo
  {
    if lo >= hi then {} else Range(lo, hi - 1) + {hi - 1}
  }

  lemma {:induction false} RangeSize(lo: int, hi: int)
    requires lo <= hi
    ensures |Range(lo, hi)| == hi - lo
    decreases hi - lo
  {
    if lo == hi {
    } else {
      RangeSize(lo, hi - 1);
      assert Range(lo, hi) == Range(lo, hi - 1) + {hi - 1};
    }
  }

  // Splitting off the last member.
  lemma ElementsSplit(s: seq<int>)
    requires |s| > 0
    ensures var n := |s| - 1;
            && Elements(s) == Elements(s[..n]) + {s[n]}
            && (NoRepeats(s) <==> NoRepeats(s[..n]) && s[n] !in Elements(s[..n]))
  {
    var n := |s| - 1;
    var t := s[..n];
    assert forall i :: 0 <= i < n ==> t[i] == s[i];
    forall x | x in Elements(s) ensures x in Elements(t) + {s[n]} {
      var i :| 0 <= i < |s| && s[i] == x;
      assert i < n ==> t[i] == x;
    }
    forall x | x in Elements(t) + {s[n]} ensures x in Elements(s) {
      if x in Elements(t) {
        var i :| 0 <= i < n && t[i] == x;
        assert s[i] == x;
      }
    }
    if NoRepeats(s) {
      forall i | 0 <= i < n ensures t[i] != s[n] {
        assert s[i] != s[n];
      }
    }
    if NoRepeats(t) && s[n] !in Elements(t) {
      forall i, j | 0 <= i < j < |s| ensures s[i] != s[j] {
        assert t[i] in Elements(t);
      }
    }
  }

  // Pigeonhole: a list has as many distinct members as positions exactly when
  // no member repeats.
  lemma {:induction false} Pigeonhole(s: seq<int>)
    ensures |Elements(s)| <= |s|
    ensures |Elements(s)| == |s| <==> NoRepeats(s)
  {
    if |s| == 0 {
      assert Elements(s) == {};
    } else {
      ElementsSplit(s);
      Pigeonhole(s[..|s| - 1]);
    }
  }
}
