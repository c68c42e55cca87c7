/** The geometry the icosphere engine reaches from the base solid after a number of
    subdivision steps, and the buffer capacities the callers size for it
    (w04/w04p05.js and w07/w07p04.js). */
module Levels {
  import opened Icosphere

  /** The highest subdivision level either exercise sizes its buffers for. */
  const MaxSubdivisions: nat := 8
  /** Bytes of one vec3 of 32-bit floats; both GPU buffers are sized in these. */
  const Vec3Bytes: nat := 12
  /** Bytes of one index in a Uint32Array. */
  const Uint32Bytes: nat := 4
  /** Both buffers hold sizeof['vec3'] * 4^(maxSubdivisions + 1) bytes. */
  const PositionBufferBytes: nat := Vec3Bytes * Pow4(MaxSubdivisions + 1)
  const IndexBufferBytes: nat := Vec3Bytes * Pow4(MaxSubdivisions + 1)
  const Uint32Limit: nat := 0x1_0000_0000

  /** A base solid with one triangle per vertex: 4 triangles over the 4 base vertices.
      Every level keeps the two counts equal, which is what lets subdivideIndices number
      the midpoints from the triangle count. */
  predicate BaseMesh(mesh: seq<nat>)
  {
    |mesh| == 3 * BaseVertexCount && IndicesBelow(mesh, BaseVertexCount)
  }

  /** The base solid of both exercises is such a mesh. */
  lemma BaseIndicesMesh()
    ensures BaseMesh(BaseIndices())
  {
  }

  /** The index list after `level` steps from the base solid `mesh`. IndicesAt and
      NextIndices call each other; the second component of the measure orders
      NextIndices(L) above IndicesAt(L), which it calls on the same level. */
  function IndicesAt(mesh: seq<nat>, level: nat): (r: seq<nat>)
    requires |mesh| == 3 * BaseVertexCount
    ensures |r| == 3 * Pow4(level + 1)
    decreases level, 0
  {
    if level == 0 then mesh else NextIndices(mesh, level - 1)
  }

  /** One step above level L: the index list of level L refined with its midpoints
      numbered from its triangle count, as subdivideIndices does. */
  function NextIndices(mesh: seq<nat>, level: nat): (r: seq<nat>)
    requires |mesh| == 3 * BaseVertexCount
    ensures |r| == 3 * Pow4(level + 2)
    decreases level, 1
  {
    var prev := IndicesAt(mesh, level);
    assert |prev| / 3 == Pow4(level + 1);
    Refine(prev, |prev| / 3)
  }

  /** One step up from level L refines level L's list with its midpoints numbered from
      its triangle count, 4^(L + 1). */
  lemma IndicesAtStep(mesh: seq<nat>, level: nat)
    requires |mesh| == 3 * BaseVertexCount
    ensures |IndicesAt(mesh, level)| % 3 == 0 && |IndicesAt(mesh, level)| / 3 == Pow4(level + 1)
    ensures IndicesAt(mesh, level + 1) == Refine(IndicesAt(mesh, level), Pow4(level + 1))
  {
    var n := Pow4(level + 1);
    assert |IndicesAt(mesh, level)| == 3 * n;
    assert IndicesAt(mesh, level + 1) == NextIndices(mesh, level);
  }

  /** At every level the index list is valid for the 4^(level + 1) vertices that exist
      once that level has been computed. */
  lemma {:induction false} IndicesAtValid(mesh: seq<nat>, level: nat)
    requires BaseMesh(mesh)
    ensures IndicesBelow(IndicesAt(mesh, level), Pow4(level + 1))
  {
    if level > 0 {
      IndicesAtValid(mesh, level - 1);
      IndicesAtStep(mesh, level - 1);
      var prev := IndicesAt(mesh, level - 1);
      RefineBounded(prev, |prev| / 3, Pow4(level + 1));
    }
  }

  /** The vertex list after `level` subdivideSphere steps from the base vertices. It
      holds exactly one vertex per triangle of its level, 4^(level + 1) of them, which is
      what makes subdivideIndices' numbering from the triangle count agree with
      subdivideSphere's numbering from the vertex count. */
  function PositionsAt<V>(base: seq<V>, mesh: seq<nat>, mid: (V, V) -> V, level: nat): (r: seq<V>)
    requires |base| == BaseVertexCount && BaseMesh(mesh)
    ensures |r| == Pow4(level + 1) && 3 * |r| == |IndicesAt(mesh, level)|
    decreases level, 0
  {
    if level == 0 then base else NextPositions(base, mesh, mid, level - 1)
  }

  /** One step above level L: the vertex list of level L followed by the midpoints of
      level L's triangles. */
  function NextPositions<V>(base: seq<V>, mesh: seq<nat>, mid: (V, V) -> V, level: nat): (r: seq<V>)
    requires |base| == BaseVertexCount && BaseMesh(mesh)
    ensures |r| == Pow4(level + 2)
    decreases level, 1
  {
    var prev := PositionsAt(base, mesh, mid, level);
    IndicesAtValid(mesh, level);
    assert |IndicesAt(mesh, level)| == 3 * |prev|;
    prev + Midpoints(prev, IndicesAt(mesh, level), mid)
  }

  /** One step up from level L appends the midpoints of level L's triangles. */
  lemma PositionsAtStep<V>(base: seq<V>, mesh: seq<nat>, mid: (V, V) -> V, level: nat)
    requires |base| == BaseVertexCount && BaseMesh(mesh)
    ensures IndicesBelow(IndicesAt(mesh, level), |PositionsAt(base, mesh, mid, level)|)
    ensures var prev := PositionsAt(base, mesh, mid, level);
            PositionsAt(base, mesh, mid, level + 1) == prev + Midpoints(prev, IndicesAt(mesh, level), mid)
  {
    IndicesAtValid(mesh, level);
    IndicesAtStep(mesh, level);
  }

  /** Computing a level never changes the vertices of the levels below it. */
  lemma {:induction false} PositionsAtGrow<V>(base: seq<V>, mesh: seq<nat>, mid: (V, V) -> V, lo: nat, hi: nat)
    requires |base| == BaseVertexCount && BaseMesh(mesh) && lo <= hi
    ensures PositionsAt(base, mesh, mid, lo) <= PositionsAt(base, mesh, mid, hi)
  {
    if lo < hi {
      PositionsAtGrow(base, mesh, mid, lo, hi - 1);
      PositionsAtExtends(base, mesh, mid, hi);
      PrefixTransitive(PositionsAt(base, mesh, mid, lo), PositionsAt(base, mesh, mid, hi - 1), PositionsAt(base, mesh, mid, hi));
    }
  }

  /** One step keeps the vertex list as a prefix. */
  lemma PositionsAtExtends<V>(base: seq<V>, mesh: seq<nat>, mid: (V, V) -> V, level: nat)
    requires |base| == BaseVertexCount && BaseMesh(mesh) && level > 0
    ensures PositionsAt(base, mesh, mid, level - 1) <= PositionsAt(base, mesh, mid, level)
  {
    assert PositionsAt(base, mesh, mid, level) == NextPositions(base, mesh, mid, level - 1);
  }

  lemma PrefixTransitive<T>(a: seq<T>, b: seq<T>, c: seq<T>)
    requires a <= b && b <= c
    ensures a <= c
  {
  }

  /** Coarsening the index list of level L + 1 gives back the index list of level L. */
  lemma CoarsenIndicesAt(mesh: seq<nat>, level: nat)
    requires |mesh| == 3 * BaseVertexCount
    ensures |IndicesAt(mesh, level + 1)| % 12 == 0
    ensures Coarsen(IndicesAt(mesh, level + 1)) == IndicesAt(mesh, level)
  {
    IndicesAtStep(mesh, level);
    CoarsenRefine(IndicesAt(mesh, level), Pow4(level + 1));
  }

  lemma {:induction false} Pow4Monotone(a: nat, b: nat)
    requires a <= b
    ensures Pow4(a) <= Pow4(b)
  {
    if a < b {
      Pow4Monotone(a, b - 1);
    }
  }

  /** Up to level 8 every index is below 4^9 < 2^32, so storing an index list in a
      Uint32Array (which keeps each value modulo 2^32) leaves it unchanged. */
  lemma IndicesAtFitUint32(mesh: seq<nat>, level: nat)
    requires BaseMesh(mesh) && level <= MaxSubdivisions
    ensures IndicesBelow(IndicesAt(mesh, level), Uint32Limit)
  {
    Pow4Monotone(level + 1, MaxSubdivisions + 1);
    IndicesAtValid(mesh, level);
    assert Pow4(MaxSubdivisions + 1) == 262144;
  }

  /** Up to level 8 the vertex list fits the position buffer and the index list fits the
      index buffer. */
  lemma LevelFitsBuffers<V>(base: seq<V>, mesh: seq<nat>, mid: (V, V) -> V, level: nat)
    requires |base| == BaseVertexCount && BaseMesh(mesh) && level <= MaxSubdivisions
    ensures Vec3Bytes * |PositionsAt(base, mesh, mid, level)| <= PositionBufferBytes
    ensures Uint32Bytes * |IndicesAt(mesh, level)| <= IndexBufferBytes
  {
    Pow4Monotone(level + 1, MaxSubdivisions + 1);
  }

  /** The index list of a displayed level names only vertices of any computed level at
      or above it. */
  lemma IndicesAtValidAbove<V>(base: seq<V>, mesh: seq<nat>, mid: (V, V) -> V, shown: nat, computed: nat)
    requires |base| == BaseVertexCount && BaseMesh(mesh) && shown <= computed
    ensures IndicesBelow(IndicesAt(mesh, shown), |PositionsAt(base, mesh, mid, computed)|)
  {
    IndicesAtValid(mesh, shown);
    Pow4Monotone(shown + 1, computed + 1);
  }

  /** subdivideSphere applied at level L: the vertex list of level L grows into that of
      level L + 1, and the returned list is the index list of level L + 1. */
  method SphereStep<V>(positions: Positions<V>, ghost base: seq<V>, ghost mesh: seq<nat>, mid: (V, V) -> V, ghost level: nat, indices: seq<nat>)
    returns (refined: seq<nat>)
    requires |base| == BaseVertexCount && BaseMesh(mesh)
    requires positions.items == PositionsAt(base, mesh, mid, level) && indices == IndicesAt(mesh, level)
    modifies positions
    ensures positions.items == PositionsAt(base, mesh, mid, level + 1) && refined == IndicesAt(mesh, level + 1)
    ensures old(positions.items) < positions.items
  {
    IndicesAtStep(mesh, level);
    PositionsAtStep(base, mesh, mid, level);
    refined := SubdivideSphere(positions, indices, mid);
  }

  /** subdivideIndices applied at level L gives the index list of level L + 1. */
  method IndicesStep(ghost mesh: seq<nat>, ghost level: nat, indices: seq<nat>) returns (refined: seq<nat>)
    requires |mesh| == 3 * BaseVertexCount && indices == IndicesAt(mesh, level)
    ensures refined == IndicesAt(mesh, level + 1)
  {
    IndicesAtStep(mesh, level);
    refined := SubdivideIndices(indices);
  }

  /** courseIndices applied at level L > 0 gives the index list of level L - 1. */
  method CoarseStep(ghost mesh: seq<nat>, ghost level: nat, indices: seq<nat>) returns (coarse: seq<nat>)
    requires |mesh| == 3 * BaseVertexCount && level > 0 && indices == IndicesAt(mesh, level)
    ensures coarse == IndicesAt(mesh, level - 1)
  {
    CoarsenIndicesAt(mesh, level - 1);
    coarse := CourseIndices(indices);
  }
}
