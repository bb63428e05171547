/**
 The index odometer of c#/code/XSerialize/Binary/XBinarySerializeArray.cs: how the writer and the
 reader of a multi-dimensional array step through its elements.
 */
module ArrayOdometer {

  /** One dimension: its length and its lower bound. */
  datatype Dim = Dim(length: nat, lower: int) {
    function Upper(): int { length - 1 + lower }
  }

  type Index = seq<int>

  predicate InBounds(dims: seq<Dim>, idx: Index) {
    && |idx| == |dims|
    && forall k :: 0 <= k < |dims| ==> dims[k].lower <= idx[k] <= dims[k].Upper()
  }

  predicate IsEmpty(dims: seq<Dim>) {
    exists k :: 0 <= k < |dims| && dims[k].length == 0
  }

  function First(dims: seq<Dim>): Index {
    seq(|dims|, k requires 0 <= k < |dims| => dims[k].lower)
  }

  // ----- row-major order -----

  /** The vectors agree before position p, and a is smaller there. */
  predicate BeforeAt(a: Index, b: Index, p: nat) {
    && |a| == |b| && p < |a|
    && a[..p] == b[..p]
    && a[p] < b[p]
  }

  /** Strictly before, comparing coordinates from the first on. */
  ghost predicate Before(a: Index, b: Index) {
    exists p :: BeforeAt(a, b, p)
  }

  lemma BeforeTransitive(a: Index, b: Index, c: Index)
    requires Before(a, b) && Before(b, c)
    ensures Before(a, c) && a != c
  {
    var p: nat :| BeforeAt(a, b, p);
    var q: nat :| BeforeAt(b, c, q);
    var r := if p < q then p else q;
    assert a[..r] == a[..p][..r] && b[..r] == b[..p][..r] && b[..r] == b[..q][..r] && c[..r] == c[..q][..r];
    assert p < q ==> b[p] == b[..q][p] == c[..q][p];
    assert q < p ==> a[q] == a[..p][q] == b[..p][q];
    assert BeforeAt(a, c, r);
  }

  lemma BeforeIrreflexive(a: Index)
    ensures !Before(a, a)
  {
  }

  /** Two different vectors of one length are ordered one way or the other. */
  lemma BeforeTotal(a: Index, b: Index)
    requires |a| == |b|
    ensures a == b || Before(a, b) || Before(b, a)
  {
    var p := 0;
    while p < |a| && a[p] == b[p]
      invariant p <= |a| && a[..p] == b[..p]
    {
      p := p + 1;
    }
    if p < |a| {
      assert BeforeAt(a, b, p) || BeforeAt(b, a, p);
    }
  }

  ghost predicate InOrder(rows: seq<Index>) {
    forall i, j :: 0 <= i < j < |rows| ==> Before(rows[i], rows[j])
  }

  // ----- the index vectors of an array -----

  function Prefix(i: int, rows: seq<Index>): seq<Index> {
    seq(|rows|, k requires 0 <= k < |rows| => [i] + rows[k])
  }

  /** All index vectors, the last coordinate varying fastest. */
  function RowMajor(dims: seq<Dim>): seq<Index>
    decreases |dims|, 0
  {
    if dims == [] then [[]] else Rows(dims, 0)
  }

  /** The index vectors whose first coordinate is at least `i` above its lower bound. */
  function Rows(dims: seq<Dim>, i: nat): seq<Index>
    requires dims != [] && i <= dims[0].length
    decreases |dims| - 1, dims[0].length - i + 1
  {
    if i == dims[0].length then []
    else Prefix(dims[0].lower + i, RowMajor(dims[1..])) + Rows(dims, i + 1)
  }

  lemma PrefixOrder(i: int, rows: seq<Index>)
    requires InOrder(rows)
    ensures InOrder(Prefix(i, rows))
  {
    forall a, b | 0 <= a < b < |rows|
      ensures Before(Prefix(i, rows)[a], Prefix(i, rows)[b])
    {
      var p: nat :| BeforeAt(rows[a], rows[b], p);
      assert ([i] + rows[a])[..p + 1] == [i] + rows[a][..p];
      assert ([i] + rows[b])[..p + 1] == [i] + rows[b][..p];
      assert BeforeAt([i] + rows[a], [i] + rows[b], p + 1);
    }
  }

  lemma PrefixMembers(dims: seq<Dim>, lo: int, rows: seq<Index>)
    requires dims != [] && dims[0].lower <= lo <= dims[0].Upper()
    requires forall idx :: idx in rows <==> InBounds(dims[1..], idx)
    ensures forall idx :: idx in Prefix(lo, rows) <==> InBounds(dims, idx) && idx[0] == lo
  {
    forall idx
      ensures idx in Prefix(lo, rows) <==> InBounds(dims, idx) && idx[0] == lo
    {
      if InBounds(dims, idx) && idx[0] == lo {
        assert InBounds(dims[1..], idx[1..]);
        var k :| 0 <= k < |rows| && rows[k] == idx[1..];
        assert Prefix(lo, rows)[k] == idx;
      }
      if idx in Prefix(lo, rows) {
        var k :| 0 <= k < |rows| && idx == [lo] + rows[k];
        assert rows[k] in rows;
        forall d | 0 <= d < |dims|
          ensures dims[d].lower <= idx[d] <= dims[d].Upper()
        {
          assert d > 0 ==> dims[1..][d - 1] == dims[d];
        }
      }
    }
  }

  lemma {:induction false} RowsFacts(dims: seq<Dim>, i: nat)
    requires dims != [] && i <= dims[0].length
    ensures InOrder(Rows(dims, i))
    ensures forall idx :: idx in Rows(dims, i) <==> InBounds(dims, idx) && idx[0] >= dims[0].lower + i
    decreases |dims| - 1, dims[0].length - i + 1
  {
    if i < dims[0].length {
      var lo := dims[0].lower + i;
      var rows := RowMajor(dims[1..]);
      RowMajorFacts(dims[1..]);
      RowsFacts(dims, i + 1);
      PrefixOrder(lo, rows);
      PrefixMembers(dims, lo, rows);
      forall a, b | a in Prefix(lo, rows) && b in Rows(dims, i + 1)
        ensures Before(a, b)
      {
        assert BeforeAt(a, b, 0);
      }
    }
  }

  /**
   Every index vector exactly once, in row-major order: strictly increasing, and exactly the
   vectors within bounds.
   */
  lemma {:induction false} RowMajorFacts(dims: seq<Dim>)
    ensures InOrder(RowMajor(dims))
    ensures forall idx :: idx in RowMajor(dims) <==> InBounds(dims, idx)
    decreases |dims|, 0
  {
    if dims != [] {
      RowsFacts(dims, 0);
    }
  }

  lemma RowMajorDistinct(dims: seq<Dim>, i: nat, j: nat)
    requires i < j < |RowMajor(dims)|
    ensures RowMajor(dims)[i] != RowMajor(dims)[j]
  {
    RowMajorFacts(dims);
    assert Before(RowMajor(dims)[i], RowMajor(dims)[j]);
  }

  lemma EmptyHasNoRows(dims: seq<Dim>)
    requires IsEmpty(dims)
    ensures RowMajor(dims) == []
  {
    var rows := RowMajor(dims);
    assert rows != [] ==> rows[0] in rows;
    RowMajorFacts(dims);
    forall idx
      ensures idx !in rows
    {
    }
  }

  // ----- one step -----

  /** Coordinate `d` goes up, everything behind it starts over. */
  function Tick(dims: seq<Dim>, idx: Index, d: nat): Index
    requires |idx| == |dims| && d < |dims|
  {
    idx[..d] + [idx[d] + 1] + First(dims)[d + 1..]
  }

  /** No index vector lies strictly between `a` and `b`. */
  ghost predicate Adjacent(dims: seq<Dim>, a: Index, b: Index) {
    && Before(a, b)
    && forall v :: InBounds(dims, v) && Before(a, v) ==> v == b || Before(b, v)
  }

  /** The tick at the last coordinate below its upper bound is the next index vector. */
  lemma TickIsNext(dims: seq<Dim>, idx: Index, d: nat)
    requires InBounds(dims, idx) && d < |dims|
    requires idx[d] < dims[d].Upper()
    requires forall k :: d < k < |dims| ==> idx[k] == dims[k].Upper()
    ensures InBounds(dims, Tick(dims, idx, d))
    ensures Adjacent(dims, idx, Tick(dims, idx, d))
  {
    var next := Tick(dims, idx, d);
    assert BeforeAt(idx, next, d);
    forall v | InBounds(dims, v) && Before(idx, v)
      ensures v == next || Before(next, v)
    {
      var p: nat :| BeforeAt(idx, v, p);
      if p < d {
        assert next[..p] == idx[..p];
        assert BeforeAt(next, v, p);
      } else {
        assert p == d;
        assert next[..d] == v[..d];
        BeforeTotal(next, v);
      }
    }
  }

  lemma NothingAfterLast(dims: seq<Dim>, idx: Index, v: Index)
    requires InBounds(dims, idx) && InBounds(dims, v)
    requires forall k :: 0 <= k < |dims| ==> idx[k] == dims[k].Upper()
    ensures !Before(idx, v)
  {
  }

  lemma NothingBeforeFirst(dims: seq<Dim>, v: Index)
    requires InBounds(dims, v)
    ensures !Before(v, First(dims))
  {
  }

  lemma FirstIsFirst(dims: seq<Dim>)
    requires !IsEmpty(dims)
    ensures RowMajor(dims) != [] && RowMajor(dims)[0] == First(dims) && InBounds(dims, First(dims))
  {
    RowMajorFacts(dims);
    var rows := RowMajor(dims);
    assert forall k :: 0 <= k < |dims| ==> dims[k].length != 0;
    assert First(dims) in rows;
    var n :| 0 <= n < |rows| && rows[n] == First(dims);
    if n > 0 {
      assert Before(rows[0], rows[n]) && rows[0] in rows;
      NothingBeforeFirst(dims, rows[0]);
      assert false;
    }
  }

  lemma NextRow(dims: seq<Dim>, n: nat, next: Index)
    requires n < |RowMajor(dims)| && InBounds(dims, next)
    requires Adjacent(dims, RowMajor(dims)[n], next)
    ensures n + 1 < |RowMajor(dims)| && RowMajor(dims)[n + 1] == next
  {
    RowMajorFacts(dims);
    var rows := RowMajor(dims);
    assert next in rows;
    assert rows[n] != next by { BeforeIrreflexive(next); }
    var m :| 0 <= m < |rows| && rows[m] == next;
    if m < n {
      assert Before(rows[m], rows[n]);
      BeforeTransitive(rows[m], rows[n], rows[m]);
    } else if m > n + 1 {
      assert rows[n + 1] in rows && Before(rows[n], rows[n + 1]) && Before(rows[n + 1], rows[m]);
      if Before(next, rows[n + 1]) {
        BeforeTransitive(next, rows[n + 1], next);
      }
    }
  }

  lemma LastRow(dims: seq<Dim>, n: nat)
    requires n < |RowMajor(dims)|
    requires forall k :: 0 <= k < |dims| ==> |RowMajor(dims)[n]| == |dims| && RowMajor(dims)[n][k] == dims[k].Upper()
    ensures n + 1 == |RowMajor(dims)|
  {
    RowMajorFacts(dims);
    var rows := RowMajor(dims);
    assert rows[n] in rows;
    if n + 1 < |rows| {
      assert rows[n + 1] in rows && Before(rows[n], rows[n + 1]);
      NothingAfterLast(dims, rows[n], rows[n + 1]);
      assert false;
    }
  }

  /** The tick leads from the n-th index vector to the one after it. */
  lemma TickAdvances(dims: seq<Dim>, n: nat, d: nat)
    requires n < |RowMajor(dims)| && d < |dims| && InBounds(dims, RowMajor(dims)[n])
    requires RowMajor(dims)[n][d] < dims[d].Upper()
    requires forall k :: d < k < |dims| ==> RowMajor(dims)[n][k] == dims[k].Upper()
    ensures n + 1 < |RowMajor(dims)| && RowMajor(dims)[n + 1] == Tick(dims, RowMajor(dims)[n], d)
  {
    TickIsNext(dims, RowMajor(dims)[n], d);
    NextRow(dims, n, Tick(dims, RowMajor(dims)[n], d));
  }

  /** The `idxs` array of one traversal, stepped in place. */
  class Odometer {
    const dims: seq<Dim>
    const idxs: array<int>

    constructor (dims: seq<Dim>)
      ensures fresh(idxs) && this.dims == dims && idxs[..] == First(dims)
    {
      this.dims := dims;
      idxs := new int[|dims|](k requires 0 <= k < |dims| => dims[k].lower);
      new;
      assert idxs[..] == First(dims);
    }

    /** Moves from the n-th index vector to the next; `more` is false when there is none. */
    method Next(ghost n: nat) returns (more: bool)
      requires n < |RowMajor(dims)| && idxs[..] == RowMajor(dims)[n]
      modifies idxs
      ensures more <==> n + 1 < |RowMajor(dims)|
      ensures more ==> idxs[..] == RowMajor(dims)[n + 1]
    {
      ghost var before := idxs[..];
      RowMajorFacts(dims);
      assert before in RowMajor(dims);
      var rank := |dims|;
      var dim := rank - 1;
      while dim >= 0 && !(idxs[dim] < dims[dim].Upper())
        invariant -1 <= dim < rank
        invariant forall k :: dim < k < rank ==> before[k] == dims[k].Upper()
      {
        assert dims[dim].lower <= before[dim] <= dims[dim].Upper();
        dim := dim - 1;
      }
      if dim == -1 {
        LastRow(dims, n);
        return false;
      }
      ghost var d := dim;
      idxs[dim] := idxs[dim] + 1;
      assert idxs[..d + 1] == Tick(dims, before, d)[..d + 1];
      dim := dim + 1;
      while dim < rank
        invariant d < dim <= rank
        invariant idxs[..dim] == Tick(dims, before, d)[..dim]
      {
        idxs[dim] := dims[dim].lower;
        assert idxs[..dim + 1] == idxs[..dim] + [dims[dim].lower];
        assert Tick(dims, before, d)[dim] == dims[dim].lower;
        dim := dim + 1;
      }
      assert idxs[..] == idxs[..rank] == Tick(dims, before, d);
      TickAdvances(dims, n, d);
      more := true;
    }
  }
}
