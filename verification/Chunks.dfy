// Cutting a buffer into windows of equal width, the last one possibly shorter.
// Packets of a part (dataplane/partcontext.go) and multipath slices
// (api/mp.go) use the same arithmetic.
module Chunks {
  import opened Utils

  // data[start:end] with start = i*w and end = Min(start+w, len(data)) is in
  // range exactly when the start is: otherwise the slice expression panics.
  predicate InRange(len: nat, w: int, i: int)
  {
    0 <= i * w <= Min(i * w + w, len)
  }

  function Chunk<T>(data: seq<T>, w: int, i: int): (c: seq<T>)
    requires InRange(|data|, w, i)
    ensures |c| == Min(i * w + w, |data|) - i * w
  {
    data[i * w..Min(i * w + w, |data|)]
  }

  // copy(data[start:end], payload)
  function SetChunk<T>(data: seq<T>, w: int, i: int, payload: seq<T>): (r: seq<T>)
    requires InRange(|data|, w, i)
    ensures |r| == |data|
  {
    var n := Min(|Chunk(data, w, i)|, |payload|);
    data[..i * w] + payload[..n] + data[i * w + n..]
  }

  lemma NextWindow(w: int, i: int)
    ensures (i + 1) * w == i * w + w
  {
  }

  lemma InRangeUpTo(len: nat, w: int, n: int, i: int)
    requires 0 <= w && 0 <= i < n && (n - 1) * w <= len
    ensures InRange(len, w, i)
  {
    ScaleMonotone(0, i, w);
    ScaleMonotone(i, n - 1, w);
  }

  // Every index below the rounded-up quotient is in range, the windows reach
  // the end of the buffer, and none of them is empty.
  lemma CeilingCovers(len: nat, w: int)
    requires w >= 1
    ensures var n := CeilDiv(len, w);
            && n >= 0 && len <= n * w
            && (forall i {:trigger InRange(len, w, i)} :: 0 <= i < n ==> InRange(len, w, i) && i * w < len)
  {
    var n := CeilDiv(len, w);
    CeilDivIsCeiling(len, w);
    forall i {:trigger InRange(len, w, i)} | 0 <= i < n ensures InRange(len, w, i) && i * w < len {
      InRangeUpTo(len, w, n, i);
      ScaleMonotone(i, n - 1, w);
    }
  }

  // ---------------------------------------------------------------- tiling

  function Flatten<T>(parts: seq<seq<T>>): seq<T>
  {
    if |parts| == 0 then [] else Flatten(parts[..|parts| - 1]) + parts[|parts| - 1]
  }

  lemma {:induction false} FlattenConcat<T>(a: seq<seq<T>>, b: seq<seq<T>>)
    ensures Flatten(a + b) == Flatten(a) + Flatten(b)
  {
    if |b| == 0 {
      assert a + b == a;
    } else {
      var n := |b| - 1;
      var ab := a + b;
      assert ab[..|ab| - 1] == a + b[..n] && ab[|ab| - 1] == b[n];
      FlattenConcat(a, b[..n]);
    }
  }

  lemma FlattenPrefix<T>(parts: seq<seq<T>>, i: nat)
    requires i < |parts|
    ensures parts[..i + 1] == parts[..i] + [parts[i]]
    ensures Flatten(parts[..i + 1]) == Flatten(parts[..i]) + parts[i]
  {
    assert parts[..i + 1][..i] == parts[..i];
  }

  function Cut<T>(data: seq<T>, w: int, n: nat): (r: seq<seq<T>>)
    requires 0 <= w && (n > 0 ==> (n - 1) * w <= |data|)
    ensures |r| == n
    ensures forall i :: 0 <= i < n ==> InRange(|data|, w, i) && r[i] == Chunk(data, w, i)
    decreases n
  {
    if n == 0 then [] else
      InRangeUpTo(|data|, w, n, n - 1);
      ScaleMonotone(n - 2, n - 1, w);
      Cut(data, w, n - 1) + [Chunk(data, w, n - 1)]
  }

  lemma Glue<T>(data: seq<T>, a: int, b: int)
    requires 0 <= a <= b <= |data|
    ensures data[..a] + data[a..b] == data[..b]
  {
  }

  // The first n windows, glued together, are the first n*w elements.
  lemma {:induction false} CutTiles<T>(data: seq<T>, w: int, n: nat)
    requires 0 <= w && (n > 0 ==> (n - 1) * w <= |data|)
    ensures 0 <= n * w
    ensures Flatten(Cut(data, w, n)) == data[..Min(n * w, |data|)]
  {
    if n > 0 {
      var start := (n - 1) * w;
      ScaleMonotone(n - 2, n - 1, w);
      CutTiles(data, w, n - 1);
      NextWindow(w, n - 1);
      var parts := Cut(data, w, n);
      assert parts[..n - 1] == Cut(data, w, n - 1);
      assert parts[n - 1] == data[start..Min(start + w, |data|)];
      Glue(data, start, Min(start + w, |data|));
    }
  }

  // Windows with different indices do not meet.
  lemma ChunksDisjoint(w: int, i: int, j: int, x: int)
    requires 0 <= w && i != j
    requires i * w <= x < i * w + w
    ensures !(j * w <= x < j * w + w)
  {
    if i < j {
      NextWindow(w, i);
      ScaleMonotone(i + 1, j, w);
    } else {
      NextWindow(w, j);
      ScaleMonotone(j + 1, i, w);
    }
  }

  // ------------------------------------------------------------ get and set

  // Reading window j after writing window i: the old window if they differ, and
  // otherwise the payload, cut to the window, before what is left of the old one.
  lemma GetAfterSet<T>(data: seq<T>, w: int, i: int, j: int, payload: seq<T>)
    requires 0 <= w && InRange(|data|, w, i) && InRange(|data|, w, j)
    ensures i != j ==> Chunk(SetChunk(data, w, i, payload), w, j) == Chunk(data, w, j)
    ensures var n := Min(|Chunk(data, w, i)|, |payload|);
            i == j ==> Chunk(SetChunk(data, w, i, payload), w, j) == payload[..n] + Chunk(data, w, i)[n..]
  {
    var m := |Chunk(data, w, j)|;
    if i < j {
      NextWindow(w, i);
      ScaleMonotone(i + 1, j, w);
    } else if j < i {
      NextWindow(w, j);
      ScaleMonotone(j + 1, i, w);
    }
    var n := Min(|Chunk(data, w, i)|, |payload|);
    if i == j {
      WindowAtSplice(data, i * w, m, payload[..n]);
    } else {
      WindowBesideSplice(data, i * w, payload[..n], j * w, m);
    }
  }

  lemma WindowAtSplice<T>(data: seq<T>, a: int, m: int, piece: seq<T>)
    requires 0 <= a <= a + m <= |data| && |piece| <= m
    ensures (data[..a] + piece + data[a + |piece|..])[a..a + m] == piece + data[a..a + m][|piece|..]
  {
  }

  lemma WindowBesideSplice<T>(data: seq<T>, a: int, piece: seq<T>, b: int, m: int)
    requires 0 <= a <= a + |piece| <= |data| && 0 <= b <= b + m <= |data|
    requires a + |piece| <= b || b + m <= a
    ensures (data[..a] + piece + data[a + |piece|..])[b..b + m] == data[b..b + m]
  {
    var r := data[..a] + piece + data[a + |piece|..];
    if a + |piece| <= b {
      assert forall x :: a + |piece| <= x < |data| ==> r[x] == data[x];
    } else {
      assert forall x :: 0 <= x < a ==> r[x] == data[x];
    }
  }

  // The windows up to the rounded-up quotient restore the buffer.
  lemma CutAllTiles<T>(data: seq<T>, w: int)
    requires w >= 1
    ensures var n := CeilDiv(|data|, w);
            n >= 0 && (n > 0 ==> (n - 1) * w <= |data|) && Flatten(Cut(data, w, n)) == data
  {
    var n := CeilDiv(|data|, w);
    CeilDivIsCeiling(|data|, w);
    var reach := n * w;
    assert |data| <= reach;
    CutTiles(data, w, n);
    assert Min(reach, |data|) == |data|;
    assert data[..|data|] == data;
    assert n == 0 ==> data == [];
  }

  // Two buffers that agree on every window are equal.
  lemma EqualChunksEqualData<T>(a: seq<T>, b: seq<T>, w: int)
    requires w >= 1 && |a| == |b|
    requires forall i :: 0 <= i < CeilDiv(|a|, w) && InRange(|a|, w, i) ==> Chunk(a, w, i) == Chunk(b, w, i)
    ensures a == b
  {
    CutAllTiles(a, w);
    CutAllTiles(b, w);
    var n := CeilDiv(|a|, w);
    var p, q := Cut(a, w, n), Cut(b, w, n);
    forall i | 0 <= i < n ensures p[i] == q[i] {
    }
    assert p == q;
  }
}
