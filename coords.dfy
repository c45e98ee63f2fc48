/**
 * Integer coordinates of the voxel world and the chunk grid laid over them
 * (assignment07/World.hh): `glm::ivec3` arithmetic, `World::chunkPos`, and the
 * flat addressing of the size^3 blocks inside one chunk.
 */
module Coords {

  /** `glm::ivec3`. */
  datatype Vec3 = Vec3(x: int, y: int, z: int)

  function Add(a: Vec3, b: Vec3): Vec3 { Vec3(a.x + b.x, a.y + b.y, a.z + b.z) }

  function Sub(a: Vec3, b: Vec3): Vec3 { Vec3(a.x - b.x, a.y - b.y, a.z - b.z) }

  /** `v * k` for an `ivec3` and an `int`. */
  function Scale(v: Vec3, k: int): Vec3 { Vec3(v.x * k, v.y * k, v.z * k) }

  /** Component-wise product `a * b` of two `ivec3`s. */
  function Mul(a: Vec3, b: Vec3): Vec3 { Vec3(a.x * b.x, a.y * b.y, a.z * b.z) }

  /** `World::chunkSize`: a `const int` member, so it is 32 for the whole lifetime of a world. */
  const ChunkSize: int := 32

  /**
   * C++ `%` on `int` with a positive divisor: it truncates toward zero, so the
   * remainder takes the sign of the dividend (Dafny's `%` is Euclidean).
   */
  function CppRem(a: int, n: int): int
    requires n > 0
  {
    if a >= 0 then a % n else -((-a) % n)
  }

  /** One axis of `World::chunkPos`: `a - ((a % chunkSize) + chunkSize) % chunkSize`. */
  function ChunkCoord(a: int): (r: int)
    ensures r % ChunkSize == 0
    ensures r <= a < r + ChunkSize
  {
    a - CppRem(CppRem(a, ChunkSize) + ChunkSize, ChunkSize)
  }

  /** A chunk origin: every component is a multiple of the chunk size. */
  predicate Aligned(p: Vec3)
  {
    p.x % ChunkSize == 0 && p.y % ChunkSize == 0 && p.z % ChunkSize == 0
  }

  /** `p` lies in the chunk whose origin is `o`. */
  predicate InChunkAt(p: Vec3, o: Vec3)
  {
    o.x <= p.x < o.x + ChunkSize && o.y <= p.y < o.y + ChunkSize && o.z <= p.z < o.z + ChunkSize
  }

  /** `World::chunkPos`: the origin of the chunk that holds the world position `p`. */
  function ChunkPos(p: Vec3): (r: Vec3)
    ensures Aligned(r)
    ensures InChunkAt(p, r)
  {
    Vec3(ChunkCoord(p.x), ChunkCoord(p.y), ChunkCoord(p.z))
  }

  /** A multiple of the chunk size no greater than `a` and less than chunk size below it is `ChunkCoord(a)`. */
  lemma ChunkCoordUnique(a: int, r: int)
    requires r % ChunkSize == 0 && r <= a < r + ChunkSize
    ensures ChunkCoord(a) == r
  {
    var c := ChunkCoord(a);
    assert c == ChunkSize * (c / ChunkSize);
    assert r == ChunkSize * (r / ChunkSize);
  }

  /** True floor division: with chunk size 32, -1 belongs to the chunk at -32 and 31 to the chunk at 0. */
  lemma ChunkCoordExamples()
    ensures ChunkCoord(-1) == -32 && ChunkCoord(-32) == -32 && ChunkCoord(-33) == -64
    ensures ChunkCoord(0) == 0 && ChunkCoord(31) == 0 && ChunkCoord(32) == 32
  {
    ChunkCoordUnique(-1, -32);
    ChunkCoordUnique(-32, -32);
    ChunkCoordUnique(-33, -64);
    ChunkCoordUnique(0, 0);
    ChunkCoordUnique(31, 0);
    ChunkCoordUnique(32, 32);
  }

  /** The chunk origin of `p` is the only aligned point whose chunk contains `p`. */
  lemma ChunkPosUnique(p: Vec3, o: Vec3)
    requires Aligned(o) && InChunkAt(p, o)
    ensures ChunkPos(p) == o
  {
    ChunkCoordUnique(p.x, o.x);
    ChunkCoordUnique(p.y, o.y);
    ChunkCoordUnique(p.z, o.z);
  }

  /** An aligned position is its own chunk origin; in particular `chunkPos` is idempotent. */
  lemma ChunkPosOfAligned(p: Vec3)
    requires Aligned(p)
    ensures ChunkPos(p) == p
  {
    ChunkPosUnique(p, p);
  }

  lemma ChunkPosIdempotent(p: Vec3)
    ensures ChunkPos(ChunkPos(p)) == ChunkPos(p)
  {
    ChunkPosOfAligned(ChunkPos(p));
  }

  /** Each axis of `chunkPos` depends on that axis of the input only. */
  lemma ChunkPosPerAxis(p: Vec3, q: Vec3)
    ensures p.x == q.x ==> ChunkPos(p).x == ChunkPos(q).x
    ensures p.y == q.y ==> ChunkPos(p).y == ChunkPos(q).y
    ensures p.z == q.z ==> ChunkPos(p).z == ChunkPos(q).z
  {
  }

  lemma {:induction false} ChunkCoordMonotone(a: int, b: int)
    requires a <= b
    ensures ChunkCoord(a) <= ChunkCoord(b)
  {
    if ChunkCoord(a) > ChunkCoord(b) {
      ChunkCoordUnique(b, ChunkCoord(a));
    }
  }

  /**
   * Of `a - 1` and `a + 1`, at least one lies in the same chunk as `a`
   * (the chunk size is at least 2), so every `b` within 1 of `a` shares a
   * chunk with `a - 1` or with `a + 1`.
   */
  lemma NearCoordCovered(a: int, b: int)
    requires a - 1 <= b <= a + 1
    ensures ChunkCoord(b) == ChunkCoord(a - 1) || ChunkCoord(b) == ChunkCoord(a + 1)
  {
    if b == a {
      var c := ChunkCoord(a);
      if c <= a - 1 {
        ChunkCoordUnique(a - 1, c);
      } else {
        ChunkCoordUnique(a + 1, c);
      }
    }
  }

  /** Two chunk coordinates at most one chunk apart differ by -32, 0 or 32. */
  lemma AlignedNear(a: int, b: int)
    requires a % ChunkSize == 0 && b % ChunkSize == 0
    requires -ChunkSize <= a - b <= ChunkSize
    ensures a - b == -ChunkSize || a - b == 0 || a - b == ChunkSize
  {
    assert a == ChunkSize * (a / ChunkSize);
    assert b == ChunkSize * (b / ChunkSize);
  }

  /** Moving an aligned origin by a whole number of chunks keeps it aligned. */
  lemma AlignedShift(o: Vec3, d: Vec3)
    requires Aligned(o) && -1 <= d.x <= 1 && -1 <= d.y <= 1 && -1 <= d.z <= 1
    ensures Aligned(Add(o, Scale(d, ChunkSize)))
  {
    MultipleAligned(o.x / ChunkSize + d.x);
    MultipleAligned(o.y / ChunkSize + d.y);
    MultipleAligned(o.z / ChunkSize + d.z);
  }

  lemma MultipleAligned(k: int)
    ensures (ChunkSize * k) % ChunkSize == 0
  {
    DivModUnique(ChunkSize * k, ChunkSize, k, 0);
  }

  // ---- flat addressing of the blocks of one chunk ------------------------

  /** A local position inside one chunk: every component in `[0, chunkSize)`. */
  predicate InCube(l: Vec3)
  {
    0 <= l.x < ChunkSize && 0 <= l.y < ChunkSize && 0 <= l.z < ChunkSize
  }

  /** The number of blocks of a chunk, `chunkSize^3`: the length `mBlocks` is resized to. */
  const Volume: int := 32768

  /**
   * Flat index of a local position, `x + y*size + z*size*size` (x fastest,
   * z slowest), written out for the chunk size 32.
   */
  function Index(l: Vec3): int
  {
    l.x + 32 * l.y + 1024 * l.z
  }

  /** Inverse of `Index`. */
  function Decode(j: int): Vec3
  {
    Vec3(j % 32, (j / 32) % 32, j / 1024)
  }

  /** Division by a positive literal divisor: `a == q*s + r` with `0 <= r < s` fixes quotient and remainder. */
  lemma DivModUnique(a: int, s: int, q: int, r: int)
    requires s > 0 && 0 <= r < s && a == q * s + r
    ensures a / s == q && a % s == r
  {
    var q0, r0 := a / s, a % s;
    assert a == q0 * s + r0;
    assert (q - q0) * s == r0 - r;
    if q > q0 {
      MulMono(1, q - q0, s);
    } else if q < q0 {
      MulMono(1, q0 - q, s);
    }
  }

  lemma MulMono(a: int, b: int, s: int)
    requires s > 0 && a <= b
    ensures a * s <= b * s
  {
    assert b * s - a * s == (b - a) * s;
  }

  /** Every local position has an index in `[0, chunkSize^3)`. */
  lemma IndexInRange(l: Vec3)
    requires InCube(l)
    ensures 0 <= Index(l) < Volume
  {
  }

  /** Decoding an index gives back the local position. */
  lemma DecodeIndex(l: Vec3)
    requires InCube(l)
    ensures Decode(Index(l)) == l
  {
    var j := Index(l);
    DivModUnique(j, 32, l.y + 32 * l.z, l.x);
    DivModUnique(j / 32, 32, l.z, l.y);
    DivModUnique(j, 1024, l.z, l.x + 32 * l.y);
  }

  /** Every index in `[0, chunkSize^3)` decodes to a local position whose index it is. */
  lemma IndexDecode(j: int)
    requires 0 <= j < Volume
    ensures InCube(Decode(j)) && Index(Decode(j)) == j
  {
    var q := j / 32;
    assert j == 32 * q + j % 32;
    assert q == 32 * (q / 32) + q % 32;
    DivModUnique(j, 1024, q / 32, j % 32 + 32 * (q % 32));
  }

  /** Distinct local positions have distinct indices. */
  lemma IndexInjective(a: Vec3, b: Vec3)
    requires InCube(a) && InCube(b) && Index(a) == Index(b)
    ensures a == b
  {
    DecodeIndex(a);
    DecodeIndex(b);
  }

  /** Stepping x past the last column continues at the next row, and past the last row at the next slice. */
  lemma IndexCarries(y: int, z: int)
    ensures Index(Vec3(ChunkSize, y, z)) == Index(Vec3(0, y + 1, z))
    ensures Index(Vec3(0, ChunkSize, z)) == Index(Vec3(0, 0, z + 1))
    ensures Index(Vec3(0, 0, ChunkSize)) == Volume
  {
  }
}
