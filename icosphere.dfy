/** The icosphere subdivision engine: one subdivision step that appends edge midpoints
    to the vertex list (subdivideSphere), the same step replayed on indices alone when the
    midpoints already exist (subdivideIndices), and its inverse on indices (courseIndices).
    The three functions appear verbatim in w04/w04p05.js and in w07/w07p04.js.

    Vertices are of an arbitrary type V; the caller supplies `mid`, the vertex placed
    between two others (normalize(add(a, b)) in the source, floating point). */
module Icosphere {

  /** The base solid both exercises start from: 4 vertices, 4 triangles. */
  function BaseIndices(): (r: seq<nat>)
    ensures |r| == 12 && forall k :: 0 <= k < |r| ==> r[k] < BaseVertexCount
  {
    [0, 1, 2, 0, 3, 1, 1, 3, 2, 0, 2, 3]
  }
  const BaseVertexCount: nat := 4

  /** 4 to the power n. */
  function Pow4(n: nat): (r: nat)
    ensures r >= 1
  {
    if n == 0 then 1 else 4 * Pow4(n - 1)
  }

  /** Every index of `idx` names one of the first n vertices. */
  predicate IndicesBelow(idx: seq<nat>, n: nat)
  {
    forall k :: 0 <= k < |idx| ==> idx[k] < n
  }

  /** The 12 index entries that replace the parent triangle (i0, i1, i2), given the
      indices of its edge midpoints c01, c12, c20: four children, each with the parent's
      winding, the corner children first at i0, then at i1, then at i2. */
  function Children(i0: nat, i1: nat, i2: nat, c01: nat, c12: nat, c20: nat): (r: seq<nat>)
    ensures |r| == 12 && r[0] == i0 && r[8] == i1 && r[11] == i2
  {
    [i0, c01, c20, c20, c01, c12, c12, c01, i1, c20, c12, i2]
  }

  /** The children of triangle t of `idx` when the midpoints of triangle t are
      base + 3t, base + 3t + 1 and base + 3t + 2. */
  function ChildrenOf(idx: seq<nat>, base: nat, t: nat): seq<nat>
    requires 3 * t + 3 <= |idx|
  {
    Children(idx[3 * t], idx[3 * t + 1], idx[3 * t + 2], base + 3 * t, base + 3 * t + 1, base + 3 * t + 2)
  }

  /** The refined index list of the first n triangles of `idx`. */
  function RefineFirst(idx: seq<nat>, base: nat, n: nat): (r: seq<nat>)
    requires 3 * n <= |idx|
    ensures |r| == 12 * n
  {
    if n == 0 then [] else RefineFirst(idx, base, n - 1) + ChildrenOf(idx, base, n - 1)
  }

  /** The index list after one subdivision step whose new vertices start at `base`:
      every triangle replaced by its four children, in triangle order. */
  function Refine(idx: seq<nat>, base: nat): (r: seq<nat>)
    requires |idx| % 3 == 0
    ensures |r| == 4 * |idx|
  {
    RefineFirst(idx, base, |idx| / 3)
  }

  /** The coarse triangles recovered from the first n groups of 12 entries of `idx`:
      entries 0, 8 and 11 of each group. */
  function CoarsenFirst(idx: seq<nat>, n: nat): (r: seq<nat>)
    requires 12 * n <= |idx|
    ensures |r| == 3 * n
  {
    if n == 0 then [] else CoarsenFirst(idx, n - 1) + [idx[12 * (n - 1)], idx[12 * (n - 1) + 8], idx[12 * (n - 1) + 11]]
  }

  /** The index list one level coarser. */
  function Coarsen(idx: seq<nat>): (r: seq<nat>)
    requires |idx| % 12 == 0
    ensures 4 * |r| == |idx|
  {
    CoarsenFirst(idx, |idx| / 12)
  }

  /** The three midpoints of the edges i0-i1, i1-i2 and i2-i0 of triangle t. */
  function MidpointsOf<V>(p: seq<V>, idx: seq<nat>, mid: (V, V) -> V, t: nat): seq<V>
    requires 3 * t + 3 <= |idx| && IndicesBelow(idx, |p|)
  {
    var i0, i1, i2 := idx[3 * t], idx[3 * t + 1], idx[3 * t + 2];
    [mid(p[i0], p[i1]), mid(p[i1], p[i2]), mid(p[i2], p[i0])]
  }

  /** The vertices appended for the first n triangles, three per triangle. */
  function MidpointsFirst<V>(p: seq<V>, idx: seq<nat>, mid: (V, V) -> V, n: nat): (m: seq<V>)
    requires 3 * n <= |idx| && IndicesBelow(idx, |p|)
    ensures |m| == 3 * n
  {
    if n == 0 then [] else MidpointsFirst(p, idx, mid, n - 1) + MidpointsOf(p, idx, mid, n - 1)
  }

  /** The vertices one subdivision step appends, three per triangle in triangle order. */
  function Midpoints<V>(p: seq<V>, idx: seq<nat>, mid: (V, V) -> V): (m: seq<V>)
    requires |idx| % 3 == 0 && IndicesBelow(idx, |p|)
    ensures |m| == |idx|
  {
    MidpointsFirst(p, idx, mid, |idx| / 3)
  }

  /** Refining n triangles starts with the refinement of the first m <= n. */
  lemma {:induction false} RefineFirstPrefix(idx: seq<nat>, base: nat, n: nat, m: nat)
    requires 3 * n <= |idx| && m <= n
    ensures RefineFirst(idx, base, n)[..12 * m] == RefineFirst(idx, base, m)
  {
    if m < n {
      var prev, r := RefineFirst(idx, base, n - 1), RefineFirst(idx, base, n);
      RefineFirstPrefix(idx, base, n - 1, m);
      assert r == prev + ChildrenOf(idx, base, n - 1);
      assert 12 * m <= |prev|;
      assert r[..12 * m] == prev[..12 * m];
    }
  }

  /** Triangle t occupies entries 12t .. 12t + 11 of the refined list, in the fixed child
      pattern; so the refined list is four times as long as the input. */
  lemma RefineFirstAt(idx: seq<nat>, base: nat, n: nat, t: nat)
    requires 3 * n <= |idx| && t < n
    ensures RefineFirst(idx, base, n)[12 * t .. 12 * t + 12] == ChildrenOf(idx, base, t)
  {
    var r := RefineFirst(idx, base, n);
    RefineFirstPrefix(idx, base, n, t + 1);
    assert r[12 * t .. 12 * t + 12] == r[..12 * (t + 1)][12 * t ..];
  }

  /** The refined list holds, for each input triangle t, the 12 entries
      (i0, c01, c20, c20, c01, c12, c12, c01, i1, c20, c12, i2) at 12t, with
      c01, c12, c20 = base + 3t, base + 3t + 1, base + 3t + 2. */
  lemma RefineAt(idx: seq<nat>, base: nat, t: nat)
    requires |idx| % 3 == 0 && t < |idx| / 3
    ensures Refine(idx, base)[12 * t .. 12 * t + 12]
            == Children(idx[3 * t], idx[3 * t + 1], idx[3 * t + 2], base + 3 * t, base + 3 * t + 1, base + 3 * t + 2)
  {
    RefineFirstAt(idx, base, |idx| / 3, t);
  }

  /** The vertices appended for triangle t sit at offsets 3t, 3t + 1 and 3t + 2, in the
      order mid(i0, i1), mid(i1, i2), mid(i2, i0); three per triangle in all. */
  lemma {:induction false} MidpointsFirstAt<V>(p: seq<V>, idx: seq<nat>, mid: (V, V) -> V, n: nat, t: nat)
    requires 3 * n <= |idx| && IndicesBelow(idx, |p|) && t < n
    ensures MidpointsFirst(p, idx, mid, n)[3 * t .. 3 * t + 3] == MidpointsOf(p, idx, mid, t)
  {
    var m := MidpointsFirst(p, idx, mid, n);
    if t < n - 1 {
      MidpointsFirstAt(p, idx, mid, n - 1, t);
      assert m[3 * t .. 3 * t + 3] == MidpointsFirst(p, idx, mid, n - 1)[3 * t .. 3 * t + 3];
    } else {
      assert m[3 * t .. 3 * t + 3] == m[|MidpointsFirst(p, idx, mid, n - 1)|..];
    }
  }

  lemma MidpointsAt<V>(p: seq<V>, idx: seq<nat>, mid: (V, V) -> V, t: nat)
    requires |idx| % 3 == 0 && IndicesBelow(idx, |p|) && t < |idx| / 3
    ensures var i0, i1, i2 := idx[3 * t], idx[3 * t + 1], idx[3 * t + 2];
            Midpoints(p, idx, mid)[3 * t .. 3 * t + 3] == [mid(p[i0], p[i1]), mid(p[i1], p[i2]), mid(p[i2], p[i0])]
  {
    MidpointsFirstAt(p, idx, mid, |idx| / 3, t);
  }

  /** If the input indices are valid for n vertices and the midpoints appended after
      `base` stay below n as well, the refined list is valid for n vertices. */
  lemma {:induction false} RefineFirstBounded(idx: seq<nat>, base: nat, n: nat, bound: nat)
    requires 3 * n <= |idx| && IndicesBelow(idx, bound) && base + 3 * n <= bound
    ensures IndicesBelow(RefineFirst(idx, base, n), bound)
  {
    if n > 0 {
      RefineFirstBounded(idx, base, n - 1, bound);
      assert IndicesBelow(ChildrenOf(idx, base, n - 1), bound);
    }
  }

  lemma RefineBounded(idx: seq<nat>, base: nat, bound: nat)
    requires |idx| % 3 == 0 && IndicesBelow(idx, bound) && base + |idx| <= bound
    ensures IndicesBelow(Refine(idx, base), bound)
  {
    RefineFirstBounded(idx, base, |idx| / 3, bound);
  }

  /** Coarsening the first n groups reads only the first 12n entries. */
  lemma {:induction false} CoarsenFirstPrefix(a: seq<nat>, b: seq<nat>, n: nat)
    requires 12 * n <= |a| && 12 * n <= |b| && a[..12 * n] == b[..12 * n]
    ensures CoarsenFirst(a, n) == CoarsenFirst(b, n)
  {
    if n > 0 {
      assert a[..12 * (n - 1)] == a[..12 * n][..12 * (n - 1)];
      assert b[..12 * (n - 1)] == b[..12 * n][..12 * (n - 1)];
      CoarsenFirstPrefix(a, b, n - 1);
      assert a[12 * (n - 1)] == a[..12 * n][12 * (n - 1)];
      assert b[12 * (n - 1)] == b[..12 * n][12 * (n - 1)];
      assert a[12 * (n - 1) + 8] == a[..12 * n][12 * (n - 1) + 8];
      assert b[12 * (n - 1) + 8] == b[..12 * n][12 * (n - 1) + 8];
      assert a[12 * (n - 1) + 11] == a[..12 * n][12 * (n - 1) + 11];
      assert b[12 * (n - 1) + 11] == b[..12 * n][12 * (n - 1) + 11];
    }
  }

  /** Coarsening the m groups of a + b, where a holds m - 1 groups and b one group,
      keeps the corners of b after the coarsening of a. */
  lemma CoarsenFirstAppend(a: seq<nat>, b: seq<nat>, m: nat)
    requires m > 0 && |a| == 12 * (m - 1) && |b| == 12
    ensures CoarsenFirst(a + b, m) == CoarsenFirst(a, m - 1) + [b[0], b[8], b[11]]
  {
    assert (a + b)[..12 * (m - 1)] == a[..12 * (m - 1)];
    CoarsenFirstPrefix(a + b, a, m - 1);
  }

  /** The corners of the children of triangle t are the corners of triangle t. */
  lemma ChildrenCorners(idx: seq<nat>, base: nat, t: nat)
    requires 3 * t + 3 <= |idx|
    ensures var c := ChildrenOf(idx, base, t); [c[0], c[8], c[11]] == idx[3 * t .. 3 * t + 3]
  {
  }

  lemma {:induction false} CoarsenRefineFirst(idx: seq<nat>, base: nat, n: nat)
    requires 3 * n <= |idx|
    ensures CoarsenFirst(RefineFirst(idx, base, n), n) == idx[..3 * n]
  {
    if n > 0 {
      var prev, c := RefineFirst(idx, base, n - 1), ChildrenOf(idx, base, n - 1);
      assert RefineFirst(idx, base, n) == prev + c;
      CoarsenFirstAppend(prev, c, n);
      CoarsenRefineFirst(idx, base, n - 1);
      ChildrenCorners(idx, base, n - 1);
      assert idx[..3 * n] == idx[..3 * (n - 1)] + idx[3 * (n - 1) .. 3 * n];
    }
  }

  /** Coarsening undoes one refinement, whatever the midpoint base: courseIndices is a
      left inverse of both subdivideSphere and subdivideIndices. */
  lemma CoarsenRefine(idx: seq<nat>, base: nat)
    requires |idx| % 3 == 0
    ensures Coarsen(Refine(idx, base)) == idx
  {
    CoarsenRefineFirst(idx, base, |idx| / 3);
    assert idx[..3 * (|idx| / 3)] == idx;
  }

  /** Refinements with different midpoint bases differ as soon as there is a triangle:
      so subdivideIndices, numbering midpoints from the triangle count, returns what
      subdivideSphere returns exactly when the vertex list held as many vertices as
      there are triangles. */
  lemma SubdivideIndicesAgrees(idx: seq<nat>, vertexCount: nat)
    requires |idx| % 3 == 0 && |idx| > 0
    ensures Refine(idx, |idx| / 3) == Refine(idx, vertexCount) <==> vertexCount == |idx| / 3
  {
    RefineAt(idx, |idx| / 3, 0);
    RefineAt(idx, vertexCount, 0);
    assert Refine(idx, |idx| / 3)[1] == Refine(idx, |idx| / 3)[0 .. 12][1];
    assert Refine(idx, vertexCount)[1] == Refine(idx, vertexCount)[0 .. 12][1];
  }

  /** The caller's growable vertex list (a JavaScript array, shared by reference). */
  class Positions<V> {
    var items: seq<V>

    constructor (initial: seq<V>)
      ensures items == initial
    {
      items := initial;
    }

    method Push(v: V)
      modifies this
      ensures items == old(items) + [v]
    {
      items := items + [v];
    }
  }

  /** Appending the midpoints of triangle n to the vertex list as it stands after n
      triangles gives the vertex list after n + 1 triangles. */
  lemma MidpointsFirstGrow<V>(p: seq<V>, idx: seq<nat>, mid: (V, V) -> V, n: nat)
    requires 3 * n + 3 <= |idx| && IndicesBelow(idx, |p|)
    ensures var q, i0, i1, i2 := p + MidpointsFirst(p, idx, mid, n), idx[3 * n], idx[3 * n + 1], idx[3 * n + 2];
            q + [mid(q[i0], q[i1])] + [mid(q[i1], q[i2])] + [mid(q[i2], q[i0])] == p + MidpointsFirst(p, idx, mid, n + 1)
  {
    assert MidpointsFirst(p, idx, mid, n + 1) == MidpointsFirst(p, idx, mid, n) + MidpointsOf(p, idx, mid, n);
  }

  /** subdivideSphere: appends three midpoints per triangle to `positions` and returns the
      finer index list, whose midpoint indices are the positions of the appended vertices. */
  method SubdivideSphere<V>(positions: Positions<V>, indices: seq<nat>, mid: (V, V) -> V)
    returns (newIndices: seq<nat>)
    requires |indices| % 3 == 0 && IndicesBelow(indices, |positions.items|)
    modifies positions
    ensures positions.items == old(positions.items) + Midpoints(old(positions.items), indices, mid)
    ensures newIndices == Refine(indices, old(|positions.items|))
  {
    ghost var p0 := positions.items;
    var triangles := |indices| / 3;
    newIndices := [];
    for i := 0 to triangles
      invariant positions.items == p0 + MidpointsFirst(p0, indices, mid, i)
      invariant newIndices == RefineFirst(indices, |p0|, i)
    {
      var i0, i1, i2 := indices[3 * i], indices[3 * i + 1], indices[3 * i + 2];
      var c01 := |positions.items|;
      var c12 := |positions.items| + 1;
      var c20 := |positions.items| + 2;
      positions.Push(mid(positions.items[i0], positions.items[i1]));
      positions.Push(mid(positions.items[i1], positions.items[i2]));
      positions.Push(mid(positions.items[i2], positions.items[i0]));
      MidpointsFirstGrow(p0, indices, mid, i);
      newIndices := newIndices + Children(i0, i1, i2, c01, c12, c20);
    }
  }

  /** subdivideIndices: the same finer index list, computed without the vertex list, with
      the midpoints of triangle i at triangles + 3i + {0, 1, 2}. It equals what
      SubdivideSphere returns on `indices` exactly when the vertex list held one vertex
      per triangle (|positions| == |indices| / 3) before that call. */
  method SubdivideIndices(indices: seq<nat>) returns (newIndices: seq<nat>)
    requires |indices| % 3 == 0
    ensures newIndices == Refine(indices, |indices| / 3)
  {
    var triangles := |indices| / 3;
    newIndices := [];
    for i := 0 to triangles
      invariant newIndices == RefineFirst(indices, triangles, i)
    {
      var i0, i1, i2 := indices[3 * i], indices[3 * i + 1], indices[3 * i + 2];
      var c01 := triangles + 3 * i;
      var c12 := triangles + 3 * i + 1;
      var c20 := triangles + 3 * i + 2;
      newIndices := newIndices + Children(i0, i1, i2, c01, c12, c20);
    }
  }

  /** courseIndices: keeps offsets 0, 8 and 11 of every group of 12 entries. */
  method CourseIndices(indices: seq<nat>) returns (newIndices: seq<nat>)
    requires |indices| % 12 == 0
    ensures newIndices == Coarsen(indices)
  {
    var triangles := |indices| / 12;
    newIndices := [];
    for i := 0 to triangles
      invariant newIndices == CoarsenFirst(indices, i)
    {
      var i0, i1, i2 := indices[12 * i], indices[12 * i + 8], indices[12 * i + 11];
      newIndices := newIndices + [i0, i1, i2];
    }
  }
}
