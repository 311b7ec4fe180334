/** Building the chunk's mesh: every solid block, visited y outermost,
    then x, then z, appends its cube to one shared vertex buffer and one
    shared 16-bit index buffer. */
module Meshing {
  import opened Blocks
  import opened Grid
  import opened Faces
  import opened Cube

  /** One visit: a solid block appends its cube, offset by the vertices
      already in the buffer; air leaves the buffers unchanged. */
  function Step(c: Chunk, m: Mesh, p: Pos): Mesh
    requires Valid(c) && InBounds(c, p)
  {
    if At(c, p).blockType != Air then
      var cube := CreateCube(c, |m.vertices|, p);
      Mesh(m.vertices + cube.vertices, m.indices + cube.indices)
    else m
  }

  /** The buffers after visiting the cells of ps in order. */
  function MeshOf(c: Chunk, ps: seq<Pos>): Mesh
    requires Valid(c) && AllInBounds(c, ps)
    decreases |ps|
  {
    if |ps| == 0 then EmptyMesh
    else
      InitInBounds(c, ps);
      Step(c, MeshOf(c, ps[..|ps| - 1]), ps[|ps| - 1])
  }

  /** The buffers are append-only: a visit keeps what is already there,
      adds at most one block's 8 corners, and adds nothing for air. */
  lemma StepAppendsOnly(c: Chunk, m: Mesh, p: Pos)
    requires Valid(c) && InBounds(c, p)
    ensures m.vertices <= Step(c, m, p).vertices && m.indices <= Step(c, m, p).indices
    ensures |Step(c, m, p).vertices| <= |m.vertices| + 8
    ensures !IsSolid(At(c, p)) ==> Step(c, m, p) == m
  {
  }

  /** Over the whole traversal the buffers only grow: the mesh after the
      first k cells is a prefix of the mesh after all of them. */
  lemma {:induction false} MeshOfGrows(c: Chunk, ps: seq<Pos>, k: nat)
    requires Valid(c) && AllInBounds(c, ps) && k <= |ps|
    ensures AllInBounds(c, ps[..k])
    ensures MeshOf(c, ps[..k]).vertices <= MeshOf(c, ps).vertices
    ensures MeshOf(c, ps[..k]).indices <= MeshOf(c, ps).indices
    decreases |ps|
  {
    assert forall i :: 0 <= i < k ==> ps[..k][i] == ps[i];
    if k == |ps| {
      assert ps[..k] == ps;
    } else {
      var init := ps[..|ps| - 1];
      InitInBounds(c, ps);
      assert init[..k] == ps[..k];
      MeshOfGrows(c, init, k);
      StepAppendsOnly(c, MeshOf(c, init), ps[|ps| - 1]);
    }
  }

  /** The mesh of the whole chunk: at most 8 vertices per block. */
  function BuildMesh(c: Chunk): (m: Mesh)
    requires Valid(c)
    ensures |m.vertices| <= 8 * BlockCount(c)
  {
    MeshSizes(c, Order(c));
    MeshOf(c, Order(c))
  }

  // ---------------------------------------------------------------------
  // Counting what a traversal emits
  // ---------------------------------------------------------------------

  /** A solid block with at least one visible face. */
  predicate Exposed(c: Chunk, p: Pos)
    requires Valid(c) && InBounds(c, p)
  {
    IsSolid(At(c, p)) && |VisibleFaces(c, p)| > 0
  }

  /** Number of exposed blocks among ps. */
  function ExposedCount(c: Chunk, ps: seq<Pos>): (n: nat)
    requires Valid(c) && AllInBounds(c, ps)
    ensures n <= |ps|
    decreases |ps|
  {
    if |ps| == 0 then 0
    else
      InitInBounds(c, ps);
      ExposedCount(c, ps[..|ps| - 1]) + (if Exposed(c, ps[|ps| - 1]) then 1 else 0)
  }

  /** Number of visible faces of the solid blocks among ps. */
  function FaceCount(c: Chunk, ps: seq<Pos>): nat
    requires Valid(c) && AllInBounds(c, ps)
    decreases |ps|
  {
    if |ps| == 0 then 0
    else
      InitInBounds(c, ps);
      var p := ps[|ps| - 1];
      FaceCount(c, ps[..|ps| - 1]) + (if IsSolid(At(c, p)) then |VisibleFaces(c, p)| else 0)
  }

  /** Buffer sizes: 8 vertices per exposed block (air and fully enclosed
      blocks add none) and 6 indices per visible face. */
  lemma {:induction false} MeshSizes(c: Chunk, ps: seq<Pos>)
    requires Valid(c) && AllInBounds(c, ps)
    ensures |MeshOf(c, ps).vertices| == 8 * ExposedCount(c, ps)
    ensures |MeshOf(c, ps).indices| == 6 * FaceCount(c, ps)
    decreases |ps|
  {
    if |ps| > 0 {
      var init, p := ps[..|ps| - 1], ps[|ps| - 1];
      InitInBounds(c, ps);
      MeshSizes(c, init);
      EnclosedBlockEmitsNothing(c, p, |MeshOf(c, init).vertices|);
    }
  }

  /** Every index is below the vertex count after any prefix of the
      traversal. This holds even past the 16-bit range, where a wrapped
      index names a wrong but existing vertex; `OffsetFitsSixteenBits` is
      what rules the wrap out. */
  lemma {:induction false} IndicesBelowVertexCount(c: Chunk, ps: seq<Pos>)
    requires Valid(c) && AllInBounds(c, ps)
    ensures AllBelow(MeshOf(c, ps).indices, |MeshOf(c, ps).vertices|)
    decreases |ps|
  {
    if |ps| > 0 {
      var init, p := ps[..|ps| - 1], ps[|ps| - 1];
      InitInBounds(c, ps);
      IndicesBelowVertexCount(c, init);
      var m := MeshOf(c, init);
      if At(c, p).blockType != Air {
        var cube := CreateCube(c, |m.vertices|, p);
        CubeIndicesBelowEnd(c, p, |m.vertices|);
        AllBelowConcat(m.indices, cube.indices, |m.vertices| + |cube.vertices|);
      }
    }
  }

  /** Every index a block emits is below the vertex count once its
      corners are appended: its own corner while offset + 8 fits 16 bits,
      and otherwise a wrapped value below 65536. */
  lemma CubeIndicesBelowEnd(c: Chunk, p: Pos, offset: nat)
    requires Valid(c) && InBounds(c, p)
    ensures AllBelow(CreateCube(c, offset, p).indices, offset + |CreateCube(c, offset, p).vertices|)
  {
    var cube := CreateCube(c, offset, p);
    if offset + 8 <= IndexLimit {
      CubeIndicesOwnCorners(c, p, offset);
    } else {
      FaceIndicesInRange(VisibleFaces(c, p), offset);
      if |VisibleFaces(c, p)| > 0 {
        assert |cube.vertices| == 8;
      }
    }
  }

  /** Every entry of s is below n. */
  predicate AllBelow(s: seq<nat>, n: nat) {
    forall j :: 0 <= j < |s| ==> s[j] < n
  }

  lemma AllBelowConcat(a: seq<nat>, b: seq<nat>, n: nat)
    requires forall j :: 0 <= j < |a| ==> a[j] < n
    requires AllBelow(b, n)
    ensures AllBelow(a + b, n)
  {
    forall j | 0 <= j < |a + b|
      ensures (a + b)[j] < n
    {
      if j >= |a| {
        assert (a + b)[j] == b[j - |a|];
      }
    }
  }

  /** An air cell adds neither vertices nor indices. */
  lemma AirAddsNothing(c: Chunk, ps: seq<Pos>, p: Pos)
    requires Valid(c) && AllInBounds(c, ps) && InBounds(c, p)
    requires !IsSolid(At(c, p))
    ensures AllInBounds(c, ps + [p])
    ensures MeshOf(c, ps + [p]) == MeshOf(c, ps)
  {
    assert (ps + [p])[..|ps|] == ps;
  }

  // ---------------------------------------------------------------------
  // The activity flag is never consulted
  // ---------------------------------------------------------------------

  /** Two chunks of the same extents whose cells agree on block type,
      whatever their activity flags. */
  predicate SameTypes(c1: Chunk, c2: Chunk)
    requires Valid(c1) && Valid(c2)
  {
    && c1.width == c2.width && c1.height == c2.height
    && forall x, y, z :: 0 <= x < c1.width && 0 <= y < c1.height && 0 <= z < c1.width ==>
         c1.blocks[x][y][z].blockType == c2.blocks[x][y][z].blockType
  }

  lemma {:induction false} SameTypesSameVisible(c1: Chunk, c2: Chunk, p: Pos, fs: seq<Face>)
    requires Valid(c1) && Valid(c2) && SameTypes(c1, c2) && InBounds(c1, p)
    ensures Visible(c1, p, fs) == Visible(c2, p, fs)
    decreases |fs|
  {
    if |fs| > 0 {
      SameTypesSameVisible(c1, c2, p, fs[1..]);
      assert FaceExposed(c1, p, fs[0]) == FaceExposed(c2, p, fs[0]);
    }
  }

  /** The mesh depends on block types only: changing any block's
      activity flag changes neither buffer. */
  lemma {:induction false} ActivityIsIgnored(c1: Chunk, c2: Chunk, ps: seq<Pos>)
    requires Valid(c1) && Valid(c2) && SameTypes(c1, c2)
    requires AllInBounds(c1, ps)
    ensures AllInBounds(c2, ps)
    ensures MeshOf(c1, ps) == MeshOf(c2, ps)
    decreases |ps|
  {
    if |ps| > 0 {
      var init, p := ps[..|ps| - 1], ps[|ps| - 1];
      InitInBounds(c1, ps);
      ActivityIsIgnored(c1, c2, init);
      SameTypesSameVisible(c1, c2, p, CullOrder);
      assert At(c1, p).blockType == At(c2, p).blockType;
    }
  }

  // ---------------------------------------------------------------------
  // The program's chunk extents
  // ---------------------------------------------------------------------

  /** At 16 x 32 x 16 the chunk holds 8192 blocks, whose 8 corners each
      fill the 16-bit index range exactly. */
  lemma SourceExtentsFitExactly(c: Chunk)
    requires c.width == ChunkWidth && c.height == ChunkHeight
    ensures BlockCount(c) == 8192
    ensures 8 * BlockCount(c) == IndexLimit
  {
  }

  /** Before visiting step k of the traversal, the vertex buffer holds at
      most 8k vertices; in a chunk whose corners fit the 16-bit range, the
      offset handed to a block plus its largest corner number 7 is still a
      16-bit value (at 16 x 32 x 16: at most 65528 + 7 = 65535). */
  lemma OffsetFitsSixteenBits(c: Chunk, k: nat)
    requires Valid(c) && 8 * BlockCount(c) <= IndexLimit
    requires k < BlockCount(c)
    ensures AllInBounds(c, Order(c)[..k])
    ensures |MeshOf(c, Order(c)[..k]).vertices| <= 8 * k
    ensures |MeshOf(c, Order(c)[..k]).vertices| + 7 < IndexLimit
  {
    var ps := Order(c)[..k];
    assert forall i :: 0 <= i < |ps| ==> ps[i] == Order(c)[i];
    MeshSizes(c, ps);
  }

  // ---------------------------------------------------------------------
  // The traversal as the program writes it: three nested loops
  // ---------------------------------------------------------------------

  /** Cells visited before (x, y, z): all earlier layers, the earlier rows
      of layer y, and the earlier cells of row x. */
  function Visited(w: nat, y: nat, x: nat, z: nat): seq<Pos> {
    Layers(w, y) + Layer(w, y, x) + Row(x, y, z)
  }

  lemma VisitedInBounds(c: Chunk, y: nat, x: nat, z: nat)
    requires y < c.height && x < c.width && z <= c.width
    ensures AllInBounds(c, Visited(c.width, y, x, z))
  {
    var w := c.width;
    var s := Visited(w, y, x, z);
    forall i | 0 <= i < |s|
      ensures InBounds(c, s[i])
    {
      var a, b := Layers(w, y), Layer(w, y, x);
      if i < |a| {
        assert s[i] == a[i] && a[i] in a;
        LayersMember(w, y, a[i]);
      } else if i < |a| + |b| {
        assert s[i] == b[i - |a|] && b[i - |a|] in b;
        LayerMember(w, y, x, b[i - |a|]);
      }
    }
  }

  /** The innermost loop body: visiting (x, y, z) is one Step. */
  lemma VisitCell(c: Chunk, y: nat, x: nat, z: nat)
    requires Valid(c) && y < c.height && x < c.width && z < c.width
    ensures AllInBounds(c, Visited(c.width, y, x, z))
    ensures AllInBounds(c, Visited(c.width, y, x, z + 1))
    ensures MeshOf(c, Visited(c.width, y, x, z + 1))
      == Step(c, MeshOf(c, Visited(c.width, y, x, z)), Pos(x, y, z))
  {
    var w := c.width;
    VisitedInBounds(c, y, x, z);
    VisitedInBounds(c, y, x, z + 1);
    var next := Visited(w, y, x, z + 1);
    assert next == Visited(w, y, x, z) + [Pos(x, y, z)];
    assert next[..|next| - 1] == Visited(w, y, x, z);
  }

  /** The end of row x is the start of row x + 1. */
  lemma RowCarries(w: nat, y: nat, x: nat)
    ensures Visited(w, y, x, w) == Visited(w, y, x + 1, 0)
  {
  }

  /** Nothing of layer y is visited at its start ... */
  lemma LayerStarts(w: nat, y: nat)
    ensures Visited(w, y, 0, 0) == Layers(w, y)
  {
  }

  /** ... and all of it at its end. */
  lemma LayerEnds(w: nat, y: nat)
    ensures Visited(w, y, w, 0) == Layers(w, y + 1)
  {
  }

  /** Sizes of the whole chunk's mesh: 8 corners per exposed block, two
      triangles (6 indices) per visible face. */
  lemma WholeMeshSizes(c: Chunk)
    requires Valid(c)
    ensures |BuildMesh(c).vertices| == 8 * ExposedCount(c, Order(c))
    ensures |BuildMesh(c).indices| == 6 * FaceCount(c, Order(c))
  {
    MeshSizes(c, Order(c));
  }

  /** Every index of the whole chunk's mesh names an emitted vertex, and
      when the chunk's corners fit the 16-bit range so does the vertex
      count. */
  lemma WholeMeshIndices(c: Chunk)
    requires Valid(c)
    ensures AllBelow(BuildMesh(c).indices, |BuildMesh(c).vertices|)
    ensures 8 * BlockCount(c) <= IndexLimit ==> |BuildMesh(c).vertices| <= IndexLimit
  {
    IndicesBelowVertexCount(c, Order(c));
  }

  /** Buffers that hold the mesh of every layer hold the chunk's mesh. */
  lemma AllLayersAreTheChunk(c: Chunk, vertices: seq<Point>, indices: seq<nat>)
    requires Valid(c) && AllInBounds(c, Layers(c.width, c.height))
    requires vertices == MeshOf(c, Layers(c.width, c.height)).vertices
    requires indices == MeshOf(c, Layers(c.width, c.height)).indices
    ensures vertices == BuildMesh(c).vertices && indices == BuildMesh(c).indices
  {
    assert Order(c) == Layers(c.width, c.height);
  }

  /** The buffers hold the mesh of the cells visited so far. */
  predicate Holds(c: Chunk, done: seq<Pos>, vertices: seq<Point>, indices: seq<nat>)
    requires Valid(c)
  {
    AllInBounds(c, done) && vertices == MeshOf(c, done).vertices && indices == MeshOf(c, done).indices
  }

  /** The innermost loop: visit the cells of row x of layer y, z
      ascending; a solid block's cube is appended with the current vertex
      count as its offset. */
  method AppendRow(c: Chunk, y: nat, x: nat, v0: seq<Point>, i0: seq<nat>)
    returns (vertices: seq<Point>, indices: seq<nat>)
    requires Valid(c) && y < c.height && x < c.width
    requires Holds(c, Visited(c.width, y, x, 0), v0, i0)
    ensures Holds(c, Visited(c.width, y, x + 1, 0), vertices, indices)
  {
    var w := c.width;
    vertices, indices := v0, i0;
    for z := 0 to w
      invariant Holds(c, Visited(w, y, x, z), vertices, indices)
    {
      VisitCell(c, y, x, z);
      if c.blocks[x][y][z].blockType != Air {
        var cube := CreateCube(c, |vertices|, Pos(x, y, z));
        vertices := vertices + cube.vertices;
        indices := indices + cube.indices;
      }
    }
    RowCarries(w, y, x);
  }

  /** The middle loop: visit the rows of layer y, x ascending. */
  method AppendLayer(c: Chunk, y: nat, v0: seq<Point>, i0: seq<nat>)
    returns (vertices: seq<Point>, indices: seq<nat>)
    requires Valid(c) && y < c.height
    requires Holds(c, Layers(c.width, y), v0, i0)
    ensures Holds(c, Layers(c.width, y + 1), vertices, indices)
  {
    var w := c.width;
    vertices, indices := v0, i0;
    LayerStarts(w, y);
    for x := 0 to w
      invariant Holds(c, Visited(w, y, x, 0), vertices, indices)
    {
      vertices, indices := AppendRow(c, y, x, vertices, indices);
    }
    LayerEnds(w, y);
  }

  /** The program's mesh construction: layers y ascending, each visited
      row by row. The result is the functional mesh of the chunk, with 8
      vertices per exposed block, 6 indices per visible face, every index
      naming an emitted vertex, and a vertex count that fits 16 bits
      whenever the chunk's corners do. */
  method CreateMesh(c: Chunk) returns (vertices: seq<Point>, indices: seq<nat>)
    requires Valid(c)
    ensures vertices == BuildMesh(c).vertices && indices == BuildMesh(c).indices
    ensures |vertices| == 8 * ExposedCount(c, Order(c))
    ensures |indices| == 6 * FaceCount(c, Order(c))
    ensures AllBelow(indices, |vertices|)
    ensures 8 * BlockCount(c) <= IndexLimit ==> |vertices| <= IndexLimit
  {
    vertices, indices := [], [];
    assert Layers(c.width, 0) == [];
    for y := 0 to c.height
      invariant Holds(c, Layers(c.width, y), vertices, indices)
    {
      vertices, indices := AppendLayer(c, y, vertices, indices);
    }
    AllLayersAreTheChunk(c, vertices, indices);
    WholeMeshSizes(c);
    WholeMeshIndices(c);
  }
}
