/** The level-of-detail controller of w04/w04p05.js: the "+" and "-" buttons step the
    displayed subdivision level between 0 and 8, computing new vertices only the first
    time a level is reached and otherwise re-deriving the index list. */
module Controller {
  import opened Icosphere
  import opened Levels

  const MinSubdivisions: nat := 0

  class LevelController<V> {
    /** The vertex list; never reassigned, only appended to. */
    const positions: Positions<V>
    /** The midpoint rule, normalize(add(a, b)) in the source. */
    const mid: (V, V) -> V
    /** The four base vertices the list started with. */
    ghost const base: seq<V>
    /** The base index list the levels are refined from. */
    ghost const mesh: seq<nat>
    /** The index list of the displayed level. */
    var indices: seq<nat>
    /** The displayed level. */
    var subdivisions: nat
    /** The highest level whose vertices have been computed. */
    var calculatedSubdivisions: nat

    /** The displayed indices are those of level `subdivisions`, the vertex list is that
        of level `calculatedSubdivisions`, and 0 <= subdivisions <= calculated <= 8. */
    ghost predicate Valid()
      reads this, positions
    {
      && |base| == BaseVertexCount && BaseMesh(mesh)
      && MinSubdivisions <= subdivisions <= calculatedSubdivisions <= MaxSubdivisions
      && indices == IndicesAt(mesh, subdivisions)
      && positions.items == PositionsAt(base, mesh, mid, calculatedSubdivisions)
    }

    /** The base solid at level 0. */
    constructor (basePositions: seq<V>, mid: (V, V) -> V)
      requires |basePositions| == BaseVertexCount
      ensures Valid() && fresh(positions)
      ensures this.mid == mid && base == basePositions && mesh == BaseIndices()
      ensures subdivisions == 0 && calculatedSubdivisions == 0
      ensures indices == BaseIndices() && positions.items == basePositions
    {
      this.positions := new Positions(basePositions);
      this.mid := mid;
      this.base := basePositions;
      this.mesh := BaseIndices();
      indices := BaseIndices();
      subdivisions := 0;
      calculatedSubdivisions := 0;
      BaseIndicesMesh();
    }

    /** The "+" button. Below level 8 it raises the displayed level by one; it appends new
        vertices (subdivideSphere) exactly when the new level had never been computed,
        and otherwise rebuilds the index list from the indices alone (subdivideIndices).
        At level 8 it changes nothing. */
    method Plus()
      requires Valid()
      modifies this, positions
      ensures Valid()
      ensures subdivisions == if old(subdivisions) < MaxSubdivisions then old(subdivisions) + 1 else old(subdivisions)
      ensures calculatedSubdivisions
              == if old(subdivisions) < MaxSubdivisions && old(subdivisions) == old(calculatedSubdivisions)
                 then old(calculatedSubdivisions) + 1 else old(calculatedSubdivisions)
      ensures old(positions.items) <= positions.items
      ensures |positions.items| > old(|positions.items|)
              <==> old(subdivisions) < MaxSubdivisions && old(subdivisions) == old(calculatedSubdivisions)
      ensures old(subdivisions) == MaxSubdivisions ==> indices == old(indices)
    {
      if subdivisions < MaxSubdivisions {
        if subdivisions + 1 > calculatedSubdivisions {
          PlusComputing();
        } else {
          PlusReindexing();
        }
      }
    }

    /** "+" onto a level never reached before: subdivideSphere appends the midpoints of
        the displayed triangles and its refined list becomes the displayed one. */
    method PlusComputing()
      requires Valid() && subdivisions == calculatedSubdivisions < MaxSubdivisions
      modifies this, positions
      ensures Valid()
      ensures subdivisions == calculatedSubdivisions == old(subdivisions) + 1
      ensures old(positions.items) < positions.items
    {
      var next := subdivisions + 1;
      var refined := SphereStep(positions, base, mesh, mid, subdivisions, indices);
      indices, subdivisions, calculatedSubdivisions := refined, next, next;
    }

    /** "+" onto a level computed before: subdivideIndices rebuilds its index list. */
    method PlusReindexing()
      requires Valid() && subdivisions < calculatedSubdivisions
      modifies this
      ensures Valid()
      ensures subdivisions == old(subdivisions) + 1 && calculatedSubdivisions == old(calculatedSubdivisions)
      ensures positions.items == old(positions.items)
    {
      indices := IndicesStep(mesh, subdivisions, indices);
      subdivisions := subdivisions + 1;
      assert indices == IndicesAt(mesh, subdivisions);
    }

    /** The "-" button. Above level 0 it lowers the displayed level by one by coarsening
        the index list; the vertex list and the computed level stay as they are. At
        level 0 it changes nothing. */
    method Minus()
      requires Valid()
      modifies this
      ensures Valid()
      ensures subdivisions == if old(subdivisions) > MinSubdivisions then old(subdivisions) - 1 else old(subdivisions)
      ensures calculatedSubdivisions == old(calculatedSubdivisions)
      ensures positions.items == old(positions.items)
      ensures old(subdivisions) == MinSubdivisions ==> indices == old(indices)
    {
      if subdivisions > MinSubdivisions {
        indices := CoarseStep(mesh, subdivisions, indices);
        subdivisions := subdivisions - 1;
        assert indices == IndicesAt(mesh, subdivisions);
      }
    }
  }

  /** At any reachable state the vertex list and the index list fit the buffers sized for
      4^9 vec3 entries, and every index names an existing vertex. */
  lemma ValidFitsBuffers<V>(c: LevelController<V>)
    requires c.Valid()
    ensures Vec3Bytes * |c.positions.items| <= PositionBufferBytes
    ensures Uint32Bytes * |c.indices| <= IndexBufferBytes
    ensures IndicesBelow(c.indices, |c.positions.items|)
  {
    LevelFitsBuffers(c.base, c.mesh, c.mid, c.calculatedSubdivisions);
    LevelFitsBuffers(c.base, c.mesh, c.mid, c.subdivisions);
    IndicesAtValidAbove(c.base, c.mesh, c.mid, c.subdivisions, c.calculatedSubdivisions);
  }
}
