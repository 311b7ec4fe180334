/** The chunk: a width x height x width grid of blocks addressed as
    blocks[x][y][z], and the fixed order in which meshing visits it. */
module Grid {
  import opened Blocks

  /** The dimensions the program instantiates. */
  const ChunkWidth: nat := 16
  const ChunkHeight: nat := 32

  datatype Chunk = Chunk(width: nat, height: nat, blocks: seq<seq<seq<Block>>>)

  /** A cell coordinate inside the grid. */
  datatype Pos = Pos(x: nat, y: nat, z: nat)

  /** A signed coordinate or offset, for neighbours that may lie outside. */
  datatype Vec3 = Vec3(x: int, y: int, z: int)

  /** The grid has exactly the extents its fields announce (the source's
      fixed-size array type guarantees this). */
  predicate Valid(c: Chunk) {
    && |c.blocks| == c.width
    && (forall x :: 0 <= x < |c.blocks| ==> |c.blocks[x]| == c.height)
    && (forall x, y :: 0 <= x < |c.blocks| && 0 <= y < |c.blocks[x]| ==> |c.blocks[x][y]| == c.width)
  }

  predicate InBounds(c: Chunk, p: Pos) {
    p.x < c.width && p.y < c.height && p.z < c.width
  }

  /** A signed coordinate that names a cell of the grid. */
  predicate InGrid(c: Chunk, v: Vec3) {
    0 <= v.x < c.width && 0 <= v.y < c.height && 0 <= v.z < c.width
  }

  function At(c: Chunk, p: Pos): Block
    requires Valid(c) && InBounds(c, p)
  {
    c.blocks[p.x][p.y][p.z]
  }

  function ToVec(p: Pos): Vec3 {
    Vec3(p.x, p.y, p.z)
  }

  function Add(a: Vec3, b: Vec3): Vec3 {
    Vec3(a.x + b.x, a.y + b.y, a.z + b.z)
  }

  /** Number of cells in a chunk. */
  function BlockCount(c: Chunk): nat {
    c.width * c.height * c.width
  }

  /** Every cell of a valid chunk, addressed through signed coordinates. */
  lemma InGridInBounds(c: Chunk, v: Vec3)
    requires InGrid(c, v)
    ensures InBounds(c, Pos(v.x, v.y, v.z))
    ensures ToVec(Pos(v.x, v.y, v.z)) == v
  {
  }

  // ---------------------------------------------------------------------
  // Traversal order: y outermost, then x, then z innermost.
  // ---------------------------------------------------------------------

  /** Cells (x, y, 0) .. (x, y, n - 1) of one row, z innermost. */
  function Row(x: nat, y: nat, n: nat): seq<Pos> {
    seq(n, z requires 0 <= z < n => Pos(x, y, z))
  }

  /** Rows 0 .. n - 1 of layer y, each a full row of width w. */
  function Layer(w: nat, y: nat, n: nat): seq<Pos>
    decreases n
  {
    if n == 0 then [] else Layer(w, y, n - 1) + Row(n - 1, y, w)
  }

  /** Layers 0 .. n - 1, each of w full rows. */
  function Layers(w: nat, n: nat): seq<Pos>
    decreases n
  {
    if n == 0 then [] else Layers(w, n - 1) + Layer(w, n - 1, w)
  }

  /** The order in which meshing visits the cells of a chunk. */
  function Order(c: Chunk): (r: seq<Pos>)
    ensures |r| == BlockCount(c)
    ensures AllInBounds(c, r)
  {
    LayersInBounds(c, c.height);
    LayersLength(c.width, c.height);
    assert c.height * (c.width * c.width) == BlockCount(c);
    Layers(c.width, c.height)
  }

  /** p comes before q when visiting y outermost, then x, then z. */
  predicate Before(p: Pos, q: Pos) {
    || p.y < q.y
    || (p.y == q.y && p.x < q.x)
    || (p.y == q.y && p.x == q.x && p.z < q.z)
  }

  predicate StrictlyOrdered(ps: seq<Pos>) {
    forall i, j :: 0 <= i < j < |ps| ==> Before(ps[i], ps[j])
  }

  predicate AllInBounds(c: Chunk, ps: seq<Pos>) {
    forall i :: 0 <= i < |ps| ==> InBounds(c, ps[i])
  }

  lemma RowMember(x: nat, y: nat, n: nat, p: Pos)
    ensures p in Row(x, y, n) <==> p.x == x && p.y == y && p.z < n
  {
    if p.x == x && p.y == y && p.z < n {
      assert Row(x, y, n)[p.z] == p;
    }
  }

  lemma {:induction false} LayerLength(w: nat, y: nat, n: nat)
    ensures |Layer(w, y, n)| == n * w
  {
    if n > 0 {
      LayerLength(w, y, n - 1);
    }
  }

  /** Layer y's first n rows hold exactly the cells of that layer whose x
      is below n. */
  lemma {:induction false} LayerMember(w: nat, y: nat, n: nat, p: Pos)
    ensures p in Layer(w, y, n) <==> p.y == y && p.x < n && p.z < w
  {
    if n > 0 {
      var a, b := Layer(w, y, n - 1), Row(n - 1, y, w);
      LayerMember(w, y, n - 1, p);
      RowMember(n - 1, y, w, p);
      assert Layer(w, y, n) == a + b;
      assert p in a + b <==> p in a || p in b;
    }
  }

  lemma {:induction false} LayerOrdered(w: nat, y: nat, n: nat)
    ensures StrictlyOrdered(Layer(w, y, n))
  {
    if n > 0 {
      LayerOrdered(w, y, n - 1);
      var a, b := Layer(w, y, n - 1), Row(n - 1, y, w);
      forall p, q | p in a && q in b
        ensures Before(p, q)
      {
        LayerMember(w, y, n - 1, p);
        RowMember(n - 1, y, w, q);
      }
      ConcatOrdered(a, b);
    }
  }

  lemma {:induction false} LayersLength(w: nat, n: nat)
    ensures |Layers(w, n)| == n * (w * w)
  {
    if n > 0 {
      LayersLength(w, n - 1);
      LayerLength(w, n - 1, w);
    }
  }

  /** The first n layers hold exactly the cells whose y is below n. */
  lemma {:induction false} LayersMember(w: nat, n: nat, p: Pos)
    ensures p in Layers(w, n) <==> p.y < n && p.x < w && p.z < w
  {
    if n > 0 {
      var a, b := Layers(w, n - 1), Layer(w, n - 1, w);
      LayersMember(w, n - 1, p);
      LayerMember(w, n - 1, w, p);
      assert Layers(w, n) == a + b;
      assert p in a + b <==> p in a || p in b;
    }
  }

  lemma {:induction false} LayersOrdered(w: nat, n: nat)
    ensures StrictlyOrdered(Layers(w, n))
  {
    if n > 0 {
      LayersOrdered(w, n - 1);
      LayerOrdered(w, n - 1, w);
      var a, b := Layers(w, n - 1), Layer(w, n - 1, w);
      forall p, q | p in a && q in b
        ensures Before(p, q)
      {
        LayersMember(w, n - 1, p);
        LayerMember(w, n - 1, w, q);
      }
      ConcatOrdered(a, b);
    }
  }

  /** Two ordered runs whose every element of the first precedes every
      element of the second concatenate to an ordered run. */
  lemma ConcatOrdered(a: seq<Pos>, b: seq<Pos>)
    requires StrictlyOrdered(a) && StrictlyOrdered(b)
    requires forall p, q :: p in a && q in b ==> Before(p, q)
    ensures StrictlyOrdered(a + b)
  {
    var s := a + b;
    forall i, j | 0 <= i < j < |s|
      ensures Before(s[i], s[j])
    {
      if j < |a| {
        assert s[i] == a[i] && s[j] == a[j];
      } else if i >= |a| {
        assert s[i] == b[i - |a|] && s[j] == b[j - |a|];
      } else {
        assert s[i] in a && s[j] in b;
      }
    }
  }

  /** Meshing visits every cell of the chunk exactly once, in increasing
      (y, x, z) order, and visits nothing else. */
  lemma OrderVisitsEveryCellOnce(c: Chunk)
    ensures forall p :: p in Order(c) <==> InBounds(c, p)
    ensures StrictlyOrdered(Order(c))
    ensures forall i, j :: 0 <= i < j < |Order(c)| ==> Order(c)[i] != Order(c)[j]
  {
    LayersOrdered(c.width, c.height);
    forall p
      ensures p in Order(c) <==> InBounds(c, p)
    {
      LayersMember(c.width, c.height, p);
    }
  }

  /** Dropping the last cell keeps a run in bounds. */
  lemma InitInBounds(c: Chunk, ps: seq<Pos>)
    requires AllInBounds(c, ps) && |ps| > 0
    ensures AllInBounds(c, ps[..|ps| - 1])
  {
    var init := ps[..|ps| - 1];
    assert forall i :: 0 <= i < |init| ==> init[i] == ps[i];
  }

  /** The first n layers of a chunk lie inside it. */
  lemma LayersInBounds(c: Chunk, n: nat)
    requires n <= c.height
    ensures AllInBounds(c, Layers(c.width, n))
  {
    var s := Layers(c.width, n);
    forall i | 0 <= i < |s|
      ensures InBounds(c, s[i])
    {
      assert s[i] in s;
      LayersMember(c.width, n, s[i]);
    }
  }
}
