/** Terrain generation: every column of a new chunk is stone from the
    bottom up to a height read from a noise sampler, and air above it. */
module Generation {
  import opened Blocks
  import opened Grid

  /** The seeded noise generator, as the function of the plane it
      computes. Its algorithm and its seed are not part of this model. */
  type Sampler = (real, real) -> real

  /** Columns sample the noise at (x / 16, z / 16). */
  const NoiseScale: real := 16.0

  /** The terrain height above column (x, z) of a chunk h blocks tall. */
  function SurfaceHeight(sample: Sampler, x: nat, z: nat, h: nat): real {
    sample(x as real / NoiseScale, z as real / NoiseScale) * h as real
  }

  /** A w x h x w chunk generated from the sampler: each block keeps the
      default block's other fields and is air strictly above the column's
      surface height, stone at or below it. */
  function Generate(w: nat, h: nat, sample: Sampler): (c: Chunk)
    ensures Valid(c) && c.width == w && c.height == h
    ensures forall x, y, z :: 0 <= x < w && 0 <= y < h && 0 <= z < w ==>
      && !c.blocks[x][y][z].isActive
      && (IsSolid(c.blocks[x][y][z]) <==> y as real <= SurfaceHeight(sample, x, z, h))
  {
    Chunk(w, h,
      seq(w, x requires 0 <= x < w =>
        seq(h, y requires 0 <= y < h =>
          seq(w, z requires 0 <= z < w =>
            New().(blockType := if y as real > SurfaceHeight(sample, x, z, h) then Air else Stone)))))
  }

  /** The program's constructor: a 16 x 32 x 16 chunk. */
  function ChunkNew(sample: Sampler): (c: Chunk)
    ensures Valid(c) && c.width == ChunkWidth && c.height == ChunkHeight
    ensures BlockCount(c) == 8192
  {
    Generate(ChunkWidth, ChunkHeight, sample)
  }

  /** Columns are stacks: below a solid block of a generated chunk every
      block is solid, and above an air block every block is air. */
  lemma ColumnIsStack(w: nat, h: nat, sample: Sampler, x: nat, z: nat, y1: nat, y2: nat)
    requires x < w && z < w && y1 <= y2 < h
    ensures var c := Generate(w, h, sample);
      IsSolid(c.blocks[x][y2][z]) ==> IsSolid(c.blocks[x][y1][z])
  {
    assert y1 as real <= y2 as real;
  }

  /** Number of solid blocks among the lowest n of column (x, z). */
  function SolidBelow(c: Chunk, x: nat, z: nat, n: nat): nat
    requires Valid(c) && x < c.width && z < c.width && n <= c.height
  {
    if n == 0 then 0
    else SolidBelow(c, x, z, n - 1) + (if IsSolid(c.blocks[x][n - 1][z]) then 1 else 0)
  }

  /** k limited to the range 0 .. n. */
  function Clamp(k: int, n: nat): nat {
    if k < 0 then 0 else if k > n then n else k
  }

  /** A generated column holds stone in the cells 0 .. floor(v), where v
      is its surface height, cut to the chunk: none when v is negative,
      the whole column once v reaches the top cell. */
  lemma {:induction false} ColumnFill(w: nat, h: nat, sample: Sampler, x: nat, z: nat, n: nat)
    requires x < w && z < w && n <= h
    ensures SolidBelow(Generate(w, h, sample), x, z, n) == Clamp(SurfaceHeight(sample, x, z, h).Floor + 1, n)
  {
    if n > 0 {
      ColumnFill(w, h, sample, x, z, n - 1);
      var v := SurfaceHeight(sample, x, z, h);
      var c := Generate(w, h, sample);
      assert IsSolid(c.blocks[x][n - 1][z]) <==> n - 1 <= v.Floor;
    }
  }
}
