/** The six faces of a block's cube: the per-block corner layout, the
    index table that turns a face into two triangles, and the offset
    16-bit indices emitted for one face. */
module Faces {
  import opened Blocks
  import opened Grid

  /** Declared in this order, so the discriminant of FRONT is 0 and of
      RIGHT is 5. */
  datatype Face = Front | Back | Top | Bottom | Left | Right

  /** The enum discriminant, used to select a row of `BaseIndices`. */
  function Discriminant(f: Face): (d: nat)
    ensures d < 6
  {
    match f
    case Front => 0
    case Back => 1
    case Top => 2
    case Bottom => 3
    case Left => 4
    case Right => 5
  }

  /** Two triangles per face, over the block's local corners 0..7. */
  const BaseIndices: seq<seq<nat>> := [
    [0, 1, 3, 3, 1, 2],  // front
    [4, 5, 7, 7, 5, 6],  // back
    [3, 2, 6, 6, 2, 7],  // top
    [5, 4, 0, 0, 4, 1],  // bottom
    [5, 0, 6, 6, 0, 3],  // left
    [1, 4, 2, 2, 4, 7]   // right
  ]

  function BaseRow(f: Face): (row: seq<nat>)
    ensures |row| == 6
    ensures forall i :: 0 <= i < 6 ==> row[i] < 8
  {
    BaseIndices[Discriminant(f)]
  }

  /** The order in which one block tests and appends its faces. */
  const CullOrder: seq<Face> := [Back, Front, Right, Left, Top, Bottom]

  /** Outward direction of a face: the neighbour whose solidity hides it. */
  function Normal(f: Face): Vec3 {
    match f
    case Back => Vec3(0, 0, 1)
    case Front => Vec3(0, 0, -1)
    case Right => Vec3(1, 0, 0)
    case Left => Vec3(-1, 0, 0)
    case Top => Vec3(0, 1, 0)
    case Bottom => Vec3(0, -1, 0)
  }

  function Opposite(f: Face): Face {
    match f
    case Back => Front
    case Front => Back
    case Right => Left
    case Left => Right
    case Top => Bottom
    case Bottom => Top
  }

  // ---------------------------------------------------------------------
  // Corner layout of one block
  // ---------------------------------------------------------------------

  /** Corner k of a block sits at the centre plus HalfBlockSize times
      CornerSign(k) on each axis: corners 0-3 on the -z side, 4-7 on +z. */
  function CornerSign(k: nat): Vec3
    requires k < 8
  {
    match k
    case 0 => Vec3(-1, -1, -1)
    case 1 => Vec3(1, -1, -1)
    case 2 => Vec3(1, 1, -1)
    case 3 => Vec3(-1, 1, -1)
    case 4 => Vec3(1, -1, 1)
    case 5 => Vec3(-1, -1, 1)
    case 6 => Vec3(-1, 1, 1)
    case _ => Vec3(1, 1, 1)
  }

  /** Signed doubled area of triangle (a, b, c) projected on n: the dot
      product of (b - a) x (c - a) with n. */
  function Orientation(a: Vec3, b: Vec3, c: Vec3, n: Vec3): int {
    var ux, uy, uz := b.x - a.x, b.y - a.y, b.z - a.z;
    var vx, vy, vz := c.x - a.x, c.y - a.y, c.z - a.z;
    (uy * vz - uz * vy) * n.x + (uz * vx - ux * vz) * n.y + (ux * vy - uy * vx) * n.z
  }

  /** Corner k lies on the side of the cube that face f looks out of. */
  predicate OnSide(k: nat, f: Face)
    requires k < 8
  {
    var s := CornerSign(k);
    match f
    case Back => s.z == 1
    case Front => s.z == -1
    case Right => s.x == 1
    case Left => s.x == -1
    case Top => s.y == 1
    case Bottom => s.y == -1
  }

  /** Corners on each side, written out. */
  lemma SideCorners(f: Face, k: nat)
    requires k < 8
    ensures OnSide(k, f) <==> match f
      case Front => k in {0, 1, 2, 3}
      case Back => k in {4, 5, 6, 7}
      case Top => k in {2, 3, 6, 7}
      case Bottom => k in {0, 1, 4, 5}
      case Left => k in {0, 3, 5, 6}
      case Right => k in {1, 2, 4, 7}
  {
    if k == 0 {} else if k == 1 {} else if k == 2 {} else if k == 3 {}
    else if k == 4 {} else if k == 5 {} else if k == 6 {} else {}
  }

  /** Each row of the index table covers exactly the four corners on its
      face's side, as two triangles (a, b, c), (c, b, d) sharing the edge
      b-c. */
  lemma FaceRowCoversItsSide(f: Face)
    ensures var row := BaseRow(f);
      && (forall i :: 0 <= i < 6 ==> OnSide(row[i], f))
      && (forall k :: 0 <= k < 8 && OnSide(k, f) ==> k in row)
      && row[3] == row[2] && row[4] == row[1]
      && row[0] != row[1] && row[0] != row[2] && row[0] != row[5]
      && row[1] != row[2] && row[1] != row[5] && row[2] != row[5]
  {
    var row := BaseRow(f);
    forall i | 0 <= i < 6
      ensures OnSide(row[i], f)
    {
      SideCorners(f, row[i]);
    }
    forall k | 0 <= k < 8 && OnSide(k, f)
      ensures k in row
    {
      SideCorners(f, k);
    }
  }

  /** Every triangle of every face has the same winding seen from outside
      the cube: the normal its vertex order induces points into the cube. */
  lemma WindingIsUniform(f: Face, t: nat)
    requires t < 2
    ensures var row := BaseRow(f);
      Orientation(CornerSign(row[3 * t]), CornerSign(row[3 * t + 1]), CornerSign(row[3 * t + 2]), Normal(f)) < 0
  {
    var row := BaseRow(f);
    var i, j, k := row[3 * t], row[3 * t + 1], row[3 * t + 2];
    match f
    case Front => if t == 0 { assert (i, j, k) == (0, 1, 3); } else { assert (i, j, k) == (3, 1, 2); }
    case Back => if t == 0 { assert (i, j, k) == (4, 5, 7); } else { assert (i, j, k) == (7, 5, 6); }
    case Top => if t == 0 { assert (i, j, k) == (3, 2, 6); } else { assert (i, j, k) == (6, 2, 7); }
    case Bottom => if t == 0 { assert (i, j, k) == (5, 4, 0); } else { assert (i, j, k) == (0, 4, 1); }
    case Left => if t == 0 { assert (i, j, k) == (5, 0, 6); } else { assert (i, j, k) == (6, 0, 3); }
    case Right => if t == 0 { assert (i, j, k) == (1, 4, 2); } else { assert (i, j, k) == (2, 4, 7); }
  }

  /** Where face f stands in `CullOrder`. */
  function CullRank(f: Face): (i: nat)
    ensures i < 6
  {
    match f
    case Back => 0
    case Front => 1
    case Right => 2
    case Left => 3
    case Top => 4
    case Bottom => 5
  }

  /** The face order a block uses lists each of the six faces exactly
      once. */
  lemma CullOrderIsPermutation(f: Face, i: nat)
    requires i < 6
    ensures |CullOrder| == 6
    ensures CullOrder[CullRank(f)] == f
    ensures CullRank(CullOrder[i]) == i
  {
    if i == 0 {} else if i == 1 {} else if i == 2 {} else if i == 3 {} else if i == 4 {} else {}
  }

  /** Opposite faces have opposite normals, and pairing is an involution. */
  lemma OppositeFaces(f: Face)
    ensures var n, m := Normal(f), Normal(Opposite(f));
      n.x + m.x == 0 && n.y + m.y == 0 && n.z + m.z == 0
    ensures Opposite(Opposite(f)) == f && Opposite(f) != f
  {
    match f
    case Front => case Back => case Top => case Bottom => case Left => case Right =>
  }

  // ---------------------------------------------------------------------
  // Vertex positions
  // ---------------------------------------------------------------------

  datatype Point = Point(x: real, y: real, z: real)

  /** Centre of the block at signed cell coordinate v: blocks are laid out
      on a pitch of twice the half-extent. */
  function Centre(v: Vec3): Point {
    Point(v.x as real * 2.0 * HalfBlockSize,
          v.y as real * 2.0 * HalfBlockSize,
          v.z as real * 2.0 * HalfBlockSize)
  }

  function Corner(v: Vec3, k: nat): Point
    requires k < 8
  {
    var c, s := Centre(v), CornerSign(k);
    Point(c.x + s.x as real * HalfBlockSize,
          c.y + s.y as real * HalfBlockSize,
          c.z + s.z as real * HalfBlockSize)
  }

  /** The eight vertices one block emits, in its local corner order. */
  function CubeVertices(p: Pos): (vs: seq<Point>)
    ensures |vs| == 8
    ensures forall k :: 0 <= k < 8 ==> vs[k] == Corner(ToVec(p), k)
  {
    var px := p.x as real * 2.0 * HalfBlockSize;
    var py := p.y as real * 2.0 * HalfBlockSize;
    var pz := p.z as real * 2.0 * HalfBlockSize;
    var h := HalfBlockSize;
    [ Point(px - h, py - h, pz - h), Point(px + h, py - h, pz - h),
      Point(px + h, py + h, pz - h), Point(px - h, py + h, pz - h),
      Point(px + h, py - h, pz + h), Point(px - h, py - h, pz + h),
      Point(px - h, py + h, pz + h), Point(px + h, py + h, pz + h) ]
  }

  /** The corner of the neighbouring cube across face f that coincides
      with corner k: the corner with the same signs except on f's axis. */
  function Mirror(f: Face, k: nat): (m: nat)
    requires k < 8
    ensures m < 8
  {
    match f
    case Back | Front => [5, 4, 7, 6, 1, 0, 3, 2][k]
    case Right | Left => [1, 0, 3, 2, 5, 4, 7, 6][k]
    case Top | Bottom => [3, 2, 1, 0, 7, 6, 5, 4][k]
  }

  lemma MirrorFlips(f: Face, k: nat)
    requires k < 8
    ensures var s, t := CornerSign(k), CornerSign(Mirror(f, k));
      match f
      case Back | Front => t.x == s.x && t.y == s.y && t.z == -s.z
      case Right | Left => t.x == -s.x && t.y == s.y && t.z == s.z
      case Top | Bottom => t.x == s.x && t.y == -s.y && t.z == s.z
    ensures OnSide(k, f) ==> OnSide(Mirror(f, k), Opposite(f))
  {
    if k == 0 {} else if k == 1 {} else if k == 2 {} else if k == 3 {}
    else if k == 4 {} else if k == 5 {} else if k == 6 {} else {}
  }

  /** Faces of neighbouring blocks touch exactly: every corner of face f
      of the block at v is, at the same position, a corner of the opposite
      face of the block one step along f's normal. This is what makes
      culling the shared pair of faces leave no gap. */
  lemma AdjacentFacesCoincide(v: Vec3, f: Face, i: nat)
    requires i < 6
    ensures var k := BaseRow(f)[i];
      && Mirror(f, k) in BaseRow(Opposite(f))
      && Corner(v, k) == Corner(Add(v, Normal(f)), Mirror(f, k))
  {
    var k := BaseRow(f)[i];
    FaceRowCoversItsSide(f);
    FaceRowCoversItsSide(Opposite(f));
    MirrorFlips(f, k);
    var s, t := CornerSign(k), CornerSign(Mirror(f, k));
    var a, b := Corner(v, k), Corner(Add(v, Normal(f)), Mirror(f, k));
    match f
    case Back | Front =>
      assert t.z == -s.z && s.z == Normal(f).z;
      assert a.z == b.z;
    case Right | Left =>
      assert t.x == -s.x && s.x == Normal(f).x;
      assert a.x == b.x;
    case Top | Bottom =>
      assert t.y == -s.y && s.y == Normal(f).y;
      assert a.y == b.y;
  }

  /** Consecutive blocks along an axis are one pitch, 2 * HalfBlockSize =
      0.5, apart. */
  lemma BlockPitch(v: Vec3, f: Face)
    ensures var a, b, n := Centre(v), Centre(Add(v, Normal(f))), Normal(f);
      b == Point(a.x + n.x as real * 0.5, a.y + n.y as real * 0.5, a.z + n.z as real * 0.5)
  {
  }

  // ---------------------------------------------------------------------
  // Offset indices
  // ---------------------------------------------------------------------

  /** Largest value plus one of the 16-bit index type. */
  const IndexLimit: nat := 65536

  /** A usize offset cast to u16 and added to a table entry, wrapping on
      overflow like release-mode u16 arithmetic. */
  function U16Add(base: nat, offset: nat): (r: nat)
    ensures r < IndexLimit
    ensures base + offset < IndexLimit ==> r == base + offset
  {
    (base + offset % IndexLimit) % IndexLimit
  }

  /** The six indices of face f for a block whose first vertex is at
      position `offset` of the vertex buffer. */
  function AddFaceIndices(f: Face, offset: nat): (r: seq<nat>)
    ensures |r| == 6
    ensures forall i :: 0 <= i < 6 ==> r[i] < IndexLimit
    ensures offset + 8 <= IndexLimit ==>
      forall i :: 0 <= i < 6 ==> r[i] == offset + BaseRow(f)[i] && offset <= r[i] < offset + 8
  {
    seq(6, i requires 0 <= i < 6 => U16Add(BaseRow(f)[i], offset))
  }

  /** Past the 16-bit range the cast wraps: an entry whose true value
      offset + table entry reaches 65536 comes out smaller than the
      block's first vertex, so it names a vertex of an earlier block and
      never the corner the table meant. */
  lemma WrapBeyondIndexLimit(f: Face, offset: nat, i: nat)
    requires i < 6 && offset + BaseRow(f)[i] >= IndexLimit
    ensures AddFaceIndices(f, offset)[i] < offset
    ensures AddFaceIndices(f, offset)[i] != offset + BaseRow(f)[i]
  {
    var b := BaseRow(f)[i];
    if offset < IndexLimit {
      assert offset % IndexLimit == offset;
      assert (b + offset) % IndexLimit == b + offset - IndexLimit;
    }
  }
}
