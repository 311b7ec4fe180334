/** A small worked chunk: the culling rule and the buffer sizes on a
    chunk of a single block. */
module Scenarios {
  import opened Blocks
  import opened Grid
  import opened Faces
  import opened Cube
  import opened Meshing

  /** A 1 x 1 x 1 chunk holding block b. */
  function Single(b: Block): (c: Chunk)
    ensures Valid(c) && InBounds(c, Pos(0, 0, 0))
  {
    Chunk(1, 1, [[[b]]])
  }

  lemma SingleOrder(b: Block)
    ensures Order(Single(b)) == [Pos(0, 0, 0)]
  {
    assert Layers(1, 1) == Layers(1, 0) + Layer(1, 0, 1);
    assert Layer(1, 0, 1) == Layer(1, 0, 0) + Row(0, 0, 1);
  }

  /** Every neighbour of a lone block lies outside the chunk. */
  lemma SingleExposed(b: Block, f: Face)
    ensures FaceExposed(Single(b), Pos(0, 0, 0), f)
  {
    match f {
      case Front => case Back => case Top => case Bottom => case Left => case Right =>
    }
  }

  lemma SingleAllVisible(b: Block)
    ensures VisibleFaces(Single(b), Pos(0, 0, 0)) == CullOrder
  {
    forall i | 0 <= i < |CullOrder|
      ensures FaceExposed(Single(b), Pos(0, 0, 0), CullOrder[i])
    {
      SingleExposed(b, CullOrder[i]);
    }
    AllExposedAllVisible(Single(b), Pos(0, 0, 0), CullOrder);
  }

  /** A lone solid block shows all six faces: 8 vertices and 36 indices;
      a lone air block shows nothing. */
  lemma SingleBlockShowsAllFaces(b: Block)
    ensures IsSolid(b) ==> |BuildMesh(Single(b)).vertices| == 8 && |BuildMesh(Single(b)).indices| == 36
    ensures !IsSolid(b) ==> BuildMesh(Single(b)) == EmptyMesh
  {
    var c, p := Single(b), Pos(0, 0, 0);
    SingleOrder(b);
    SingleAllVisible(b);
    var ps := Order(c);
    assert ps[..|ps| - 1] == [] && ps[|ps| - 1] == p;
    assert MeshOf(c, []) == EmptyMesh;
    assert MeshOf(c, ps) == Step(c, MeshOf(c, []), p);
  }
}
