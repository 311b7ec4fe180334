/** One block's contribution to the mesh: which of its six faces are
    visible, and the vertices and offset indices it emits. */
module Cube {
  import opened Blocks
  import opened Grid
  import opened Faces

  /** Vertex and index buffers; indices are 16-bit values. */
  datatype Mesh = Mesh(vertices: seq<Point>, indices: seq<nat>)

  const EmptyMesh := Mesh([], [])

  /** The culling rule: face f of the block at p is visible exactly when
      the cell one step along f's normal lies outside the chunk or is air.
      Chunk borders therefore count as open air. */
  predicate FaceExposed(c: Chunk, p: Pos, f: Face)
    requires Valid(c) && InBounds(c, p)
  {
    var n := Add(ToVec(p), Normal(f));
    !InGrid(c, n) || c.blocks[n.x][n.y][n.z].blockType == Air
  }

  /** The per-face test as the program writes it: on the border, or the
      in-bounds neighbour on that side is air. */
  predicate CullTest(c: Chunk, p: Pos, f: Face)
    requires Valid(c) && InBounds(c, p)
  {
    var w, h, b := c.width, c.height, c.blocks;
    match f
    case Back => p.z == w - 1 || (p.z < w - 1 && b[p.x][p.y][p.z + 1].blockType == Air)
    case Front => p.z == 0 || (p.z > 0 && b[p.x][p.y][p.z - 1].blockType == Air)
    case Right => p.x == w - 1 || (p.x < w - 1 && b[p.x + 1][p.y][p.z].blockType == Air)
    case Left => p.x == 0 || (p.x > 0 && b[p.x - 1][p.y][p.z].blockType == Air)
    case Top => p.y == h - 1 || (p.y < h - 1 && b[p.x][p.y + 1][p.z].blockType == Air)
    case Bottom => p.y == 0 || (p.y > 0 && b[p.x][p.y - 1][p.z].blockType == Air)
  }

  /** The program's six bound-and-neighbour tests are exactly the culling
      rule: a face is kept iff its neighbour is missing or air. */
  lemma CullTestIsCullingRule(c: Chunk, p: Pos, f: Face)
    requires Valid(c) && InBounds(c, p)
    ensures CullTest(c, p, f) <==> FaceExposed(c, p, f)
  {
    match f
    case Back => case Front => case Right => case Left => case Top => case Bottom =>
  }

  /** The faces of fs that pass the culling rule, in the order of fs. */
  function Visible(c: Chunk, p: Pos, fs: seq<Face>): (r: seq<Face>)
    requires Valid(c) && InBounds(c, p)
    ensures |r| <= |fs|
    decreases |fs|
  {
    if |fs| == 0 then []
    else
      var rest := Visible(c, p, fs[1..]);
      if FaceExposed(c, p, fs[0]) then [fs[0]] + rest else rest
  }

  /** Filtering keeps exactly the listed faces that pass the rule. */
  lemma {:induction false} VisibleMembers(c: Chunk, p: Pos, fs: seq<Face>, f: Face)
    requires Valid(c) && InBounds(c, p)
    ensures f in Visible(c, p, fs) <==> f in fs && FaceExposed(c, p, f)
    decreases |fs|
  {
    if |fs| > 0 {
      VisibleMembers(c, p, fs[1..], f);
      assert f in fs <==> f == fs[0] || f in fs[1..];
    }
  }

  /** When every listed face passes the rule, filtering keeps them all. */
  lemma {:induction false} AllExposedAllVisible(c: Chunk, p: Pos, fs: seq<Face>)
    requires Valid(c) && InBounds(c, p)
    requires forall i :: 0 <= i < |fs| ==> FaceExposed(c, p, fs[i])
    ensures Visible(c, p, fs) == fs
    decreases |fs|
  {
    if |fs| > 0 {
      AllExposedAllVisible(c, p, fs[1..]);
      assert [fs[0]] + fs[1..] == fs;
    }
  }

  /** No face is listed twice. */
  predicate Distinct(fs: seq<Face>) {
    forall i, j :: 0 <= i < j < |fs| ==> fs[i] != fs[j]
  }

  /** Filtering a list without repeats yields a list without repeats. */
  lemma {:induction false} VisibleDistinct(c: Chunk, p: Pos, fs: seq<Face>)
    requires Valid(c) && InBounds(c, p)
    requires Distinct(fs)
    ensures Distinct(Visible(c, p, fs))
    decreases |fs|
  {
    if |fs| > 0 {
      var rest := Visible(c, p, fs[1..]);
      assert Distinct(fs[1..]) by {
        forall i, j | 0 <= i < j < |fs[1..]|
          ensures fs[1..][i] != fs[1..][j]
        {
          assert fs[1..][i] == fs[i + 1] && fs[1..][j] == fs[j + 1];
        }
      }
      VisibleDistinct(c, p, fs[1..]);
      if FaceExposed(c, p, fs[0]) {
        assert fs[0] !in fs[1..];
        VisibleMembers(c, p, fs[1..], fs[0]);
        var r := [fs[0]] + rest;
        forall i, j | 0 <= i < j < |r|
          ensures r[i] != r[j]
        {
          if i == 0 {
            assert r[j] == rest[j - 1];
            assert rest[j - 1] in rest;
          } else {
            assert r[i] == rest[i - 1] && r[j] == rest[j - 1];
          }
        }
      }
    }
  }

  /** The six tests name six different faces. */
  lemma CullOrderDistinct()
    ensures Distinct(CullOrder)
  {
    forall i, j | 0 <= i < j < |CullOrder|
      ensures CullOrder[i] != CullOrder[j]
    {
      CullOrderIsPermutation(CullOrder[i], i);
      CullOrderIsPermutation(CullOrder[j], j);
    }
  }

  /** Two neighbouring cells, q one step from p along f's normal, share a
      pair of faces: p's face f shows exactly when q is air, q's opposite
      face exactly when p is air, so the pair is hidden on both sides iff
      both cells are solid. */
  lemma SharedFacePair(c: Chunk, p: Pos, q: Pos, f: Face)
    requires Valid(c) && InBounds(c, p) && InBounds(c, q)
    requires ToVec(q) == Add(ToVec(p), Normal(f))
    ensures FaceExposed(c, p, f) <==> !IsSolid(At(c, q))
    ensures FaceExposed(c, q, Opposite(f)) <==> !IsSolid(At(c, p))
    ensures !FaceExposed(c, p, f) && !FaceExposed(c, q, Opposite(f)) <==> IsSolid(At(c, p)) && IsSolid(At(c, q))
  {
    OppositeFaces(f);
  }

  /** The visible faces of one block, in the order it appends them. */
  function VisibleFaces(c: Chunk, p: Pos): seq<Face>
    requires Valid(c) && InBounds(c, p)
  {
    Visible(c, p, CullOrder)
  }

  /** A block's face list names each visible face once, and only those. */
  lemma VisibleFacesExactly(c: Chunk, p: Pos, f: Face)
    requires Valid(c) && InBounds(c, p)
    ensures f in VisibleFaces(c, p) <==> FaceExposed(c, p, f)
    ensures Distinct(VisibleFaces(c, p))
    ensures |VisibleFaces(c, p)| <= 6
  {
    CullOrderDistinct();
    VisibleDistinct(c, p, CullOrder);
    CullOrderIsPermutation(f, 0);
    assert f == CullOrder[CullRank(f)];
    VisibleMembers(c, p, CullOrder, f);
  }

  /** Six offset indices per face, concatenated in the order of fs. */
  function FaceIndices(fs: seq<Face>, offset: nat): (r: seq<nat>)
    ensures |r| == 6 * |fs|
    decreases |fs|
  {
    if |fs| == 0 then [] else AddFaceIndices(fs[0], offset) + FaceIndices(fs[1..], offset)
  }

  /** Every index of a run of faces fits 16 bits; when the block's corners
      fit below the limit, every index points at one of them. */
  lemma {:induction false} FaceIndicesInRange(fs: seq<Face>, offset: nat)
    ensures forall j :: 0 <= j < |FaceIndices(fs, offset)| ==> FaceIndices(fs, offset)[j] < IndexLimit
    ensures offset + 8 <= IndexLimit ==>
      forall j :: 0 <= j < |FaceIndices(fs, offset)| ==> offset <= FaceIndices(fs, offset)[j] < offset + 8
    decreases |fs|
  {
    if |fs| > 0 {
      FaceIndicesInRange(fs[1..], offset);
      var head, rest := AddFaceIndices(fs[0], offset), FaceIndices(fs[1..], offset);
      assert FaceIndices(fs, offset) == head + rest;
      assert forall j :: 6 <= j < |head + rest| ==> (head + rest)[j] == rest[j - 6];
    }
  }

  /** The indices of the j-th face listed sit at positions 6j .. 6j + 5. */
  lemma {:induction false} FaceIndicesGroup(fs: seq<Face>, offset: nat, j: nat, i: nat)
    requires j < |fs| && i < 6
    ensures FaceIndices(fs, offset)[6 * j + i] == AddFaceIndices(fs[j], offset)[i]
    decreases |fs|
  {
    if j > 0 {
      FaceIndicesGroup(fs[1..], offset, j - 1, i);
      assert FaceIndices(fs, offset) == AddFaceIndices(fs[0], offset) + FaceIndices(fs[1..], offset);
    }
  }

  /** The indices appended for the faces of fs, in order, keeping each
      face that passes the program's per-face test. */
  function AppendFaces(c: Chunk, p: Pos, fs: seq<Face>, offset: nat): (r: seq<nat>)
    requires Valid(c) && InBounds(c, p)
    ensures |r| <= 6 * |fs|
    decreases |fs|
  {
    if |fs| == 0 then []
    else
      (if CullTest(c, p, fs[0]) then AddFaceIndices(fs[0], offset) else [])
      + AppendFaces(c, p, fs[1..], offset)
  }

  /** Testing face by face appends exactly the indices of the faces the
      culling rule keeps, in the tested order. */
  lemma {:induction false} AppendFacesKeepsVisible(c: Chunk, p: Pos, fs: seq<Face>, offset: nat)
    requires Valid(c) && InBounds(c, p)
    ensures AppendFaces(c, p, fs, offset) == FaceIndices(Visible(c, p, fs), offset)
    decreases |fs|
  {
    if |fs| > 0 {
      AppendFacesKeepsVisible(c, p, fs[1..], offset);
      CullTestIsCullingRule(c, p, fs[0]);
      if FaceExposed(c, p, fs[0]) {
        assert ([fs[0]] + Visible(c, p, fs[1..]))[1..] == Visible(c, p, fs[1..]);
      }
    }
  }

  /** The mesh of the block at p, given the number of vertices already in
      the buffer. Faces are tested and appended in the order back, front,
      right, left, top, bottom; a block with no visible face emits
      nothing at all, not even its corners. */
  function CreateCube(c: Chunk, offset: nat, p: Pos): (m: Mesh)
    requires Valid(c) && InBounds(c, p)
    ensures m.indices == FaceIndices(VisibleFaces(c, p), offset)
    ensures |m.indices| == 6 * |VisibleFaces(c, p)|
    ensures |VisibleFaces(c, p)| == 0 ==> m == EmptyMesh
    ensures |VisibleFaces(c, p)| > 0 ==> m.vertices == CubeVertices(p)
  {
    var indices := AppendFaces(c, p, CullOrder, offset);
    AppendFacesKeepsVisible(c, p, CullOrder, offset);
    if |indices| == 0 then EmptyMesh else Mesh(CubeVertices(p), indices)
  }

  /** Extreme culling: a block emits nothing exactly when every one of its
      six neighbours exists and is solid; otherwise it emits all 8 of its
      corners. */
  lemma EnclosedBlockEmitsNothing(c: Chunk, p: Pos, offset: nat)
    requires Valid(c) && InBounds(c, p)
    ensures CreateCube(c, offset, p) == EmptyMesh <==> forall f :: !FaceExposed(c, p, f)
    ensures CreateCube(c, offset, p) != EmptyMesh ==> |CreateCube(c, offset, p).vertices| == 8
  {
    var vis := VisibleFaces(c, p);
    if |vis| > 0 {
      VisibleFacesExactly(c, p, vis[0]);
      assert FaceExposed(c, p, vis[0]);
    } else {
      forall f
        ensures !FaceExposed(c, p, f)
      {
        VisibleFacesExactly(c, p, f);
      }
    }
  }

  /** The block's indices refer only to its own corners: each lies in
      [offset, offset + |vertices|) once the corners fit in 16 bits. */
  lemma CubeIndicesOwnCorners(c: Chunk, p: Pos, offset: nat)
    requires Valid(c) && InBounds(c, p)
    requires offset + 8 <= IndexLimit
    ensures var m := CreateCube(c, offset, p);
      forall j :: 0 <= j < |m.indices| ==> offset <= m.indices[j] < offset + |m.vertices|
  {
    FaceIndicesInRange(VisibleFaces(c, p), offset);
  }
}
