/** The start-up of w07/w07p04.js: before the first frame the sphere is subdivided six
    times from the base solid with subdivideSphere, the vertex list growing in place and
    the index list replaced after every step. */
module InitialSphere {
  import opened Icosphere
  import opened Levels

  /** The number of subdivision steps taken before the first frame. */
  const InitialSubdivisions: nat := 6

  /** Runs the six start-up steps on the base vertices in `positions` and the base index
      list `mesh`. Afterwards the vertex list and the index list are those of level 6:
      4^7 vertices, three indices per vertex, every index naming a vertex. */
  method SubdivideInitially<V>(positions: Positions<V>, mesh: seq<nat>, mid: (V, V) -> V)
    returns (indices: seq<nat>)
    requires |positions.items| == BaseVertexCount && BaseMesh(mesh)
    modifies positions
    ensures positions.items == PositionsAt(old(positions.items), mesh, mid, InitialSubdivisions)
    ensures indices == IndicesAt(mesh, InitialSubdivisions)
    ensures |positions.items| == Pow4(InitialSubdivisions + 1) && |indices| == 3 * |positions.items|
    ensures IndicesBelow(indices, |positions.items|)
  {
    ghost var base := positions.items;
    indices := mesh;
    for i := 0 to InitialSubdivisions
      invariant positions.items == PositionsAt(base, mesh, mid, i)
      invariant indices == IndicesAt(mesh, i)
    {
      indices := SphereStep(positions, base, mesh, mid, i, indices);
    }
    IndicesAtValid(mesh, InitialSubdivisions);
  }

  /** After the start-up, and after every step of it, the index list names only
      existing vertices; at the end there are 16384 vertices and 49152 indices. */
  lemma InitialSphereShape<V>(base: seq<V>, mesh: seq<nat>, mid: (V, V) -> V, step: nat)
    requires |base| == BaseVertexCount && BaseMesh(mesh) && step <= InitialSubdivisions
    ensures IndicesBelow(IndicesAt(mesh, step), |PositionsAt(base, mesh, mid, step)|)
    ensures step == InitialSubdivisions ==>
              |PositionsAt(base, mesh, mid, step)| == 16384 && |IndicesAt(mesh, step)| == 49152
  {
    IndicesAtValid(mesh, step);
  }
}
