/**
 * How the world's mesh caches change when chunks are created and marked
 * dirty (assignment07/World.cc `ensureChunkAt` and `markDirty`), stated on
 * values: the cache state of every chunk, keyed by chunk origin.
 */
module Marking {
  import opened Coords
  import opened Blocks
  import opened Meshing

  /** The mutable part of a `Chunk` besides its blocks: `mIsDirty` and `mMeshes`. */
  datatype CacheState = CacheState(dirty: bool, meshes: map<int, seq<Vertex>>)

  /** The state `Chunk::markDirty` leaves: dirty, with no cached mesh. */
  const MarkedCache: CacheState := CacheState(true, map[])

  /** One chunk as a value: its blocks in flat order and its cache. */
  datatype ChunkState = ChunkState(blocks: seq<int>, cache: CacheState)

  /** The chunks of a world as a value, keyed by chunk origin. */
  type ChunkMap = map<Vec3, ChunkState>

  /** `Chunk::markDirty` on a chunk value. */
  function Mark(c: ChunkState): ChunkState
  {
    c.(cache := MarkedCache)
  }

  /** The blocks of every chunk. */
  function BlocksOf(m: ChunkMap): (r: Snapshot)
    ensures r.Keys == m.Keys
    ensures forall o | o in m :: r[o] == m[o].blocks
  {
    map o | o in m :: m[o].blocks
  }

  /** A chunk just created at origin `o` and generated, and marked by the neighbour loop. */
  function NewChunk(gen: Terrain, o: Vec3): ChunkState
  {
    ChunkState(Generated(gen, o), MarkedCache)
  }

  /**
   * `m1` arises from `m0` by creating chunks and marking chunks dirty only:
   * no chunk disappears, and every cache is either as before or marked (so
   * the caches of new chunks are marked).
   */
  predicate MarkOnly(m0: ChunkMap, m1: ChunkMap)
  {
    m0.Keys <= m1.Keys && forall o | o in m1 :: m1[o].cache == MarkedCache || (o in m0 && m1[o].cache == m0[o].cache)
  }

  /**
   * `m1` arises from `m0` by creating and generating chunks only: every
   * chunk of `m0` keeps its blocks and every new chunk holds what the
   * generator produces for it.
   */
  predicate GrownBy(gen: Terrain, m0: ChunkMap, m1: ChunkMap)
  {
    m0.Keys <= m1.Keys && forall o | o in m1 :: m1[o].blocks == if o in m0 then m0[o].blocks else Generated(gen, o)
  }

  /** Creating and marking chunks: a change that is both of the above. */
  predicate Evolves(gen: Terrain, m0: ChunkMap, m1: ChunkMap)
  {
    MarkOnly(m0, m1) && GrownBy(gen, m0, m1)
  }

  lemma EvolvesReflexive(gen: Terrain, m: ChunkMap)
    ensures Evolves(gen, m, m)
  {
  }

  lemma EvolvesTransitive(gen: Terrain, a: ChunkMap, b: ChunkMap, c: ChunkMap)
    requires Evolves(gen, a, b) && Evolves(gen, b, c)
    ensures Evolves(gen, a, c)
  {
  }

  /** Such a change keeps a marked chunk marked. */
  lemma EvolvesKeepsMarked(gen: Terrain, m0: ChunkMap, m1: ChunkMap, o: Vec3)
    requires MarkOnly(m0, m1) && o in m0 && m0[o].cache == MarkedCache
    ensures o in m1 && m1[o].cache == MarkedCache
  {
  }

  /** On the block snapshots, growing keeps every existing block and reads new chunks as generated. */
  lemma {:induction false} GrownByBlocks(gen: Terrain, m0: ChunkMap, m1: ChunkMap, p: Vec3)
    requires GrownBy(gen, m0, m1)
    ensures ChunkPos(p) in m0 ==> BlockIn(BlocksOf(m1), p) == BlockIn(BlocksOf(m0), p)
    ensures ChunkPos(p) in m1 && ChunkPos(p) !in m0 ==> BlockIn(BlocksOf(m1), p) == gen[p]
  {
    GrownBlocks(gen, BlocksOf(m0), BlocksOf(m1), p);
  }

  /** Marking one existing chunk is such a change. */
  lemma MarkOneEvolves(gen: Terrain, m: ChunkMap, q: Vec3)
    requires q in m
    ensures Evolves(gen, m, m[q := Mark(m[q])])
  {
  }

  /** The chunk at origin `o` is one of the 3x3x3 chunks around the chunk at `cp`. */
  predicate Near(o: Vec3, cp: Vec3)
  {
    -ChunkSize <= o.x - cp.x <= ChunkSize && -ChunkSize <= o.y - cp.y <= ChunkSize && -ChunkSize <= o.z - cp.z <= ChunkSize
  }

  /** Every chunk next to `cp` marked, the others unchanged. */
  function MarkNear(m: ChunkMap, cp: Vec3): ChunkMap
  {
    map o | o in m :: if Near(o, cp) then Mark(m[o]) else m[o]
  }

  /**
   * `ensureChunkAt(p)` on values: nothing when the chunk holding `p`
   * exists; otherwise the new, generated chunk is added and it and its
   * existing neighbours are marked.
   */
  function EnsureAt(gen: Terrain, m: ChunkMap, p: Vec3): ChunkMap
  {
    var cp := ChunkPos(p);
    if cp in m then m else MarkNear(m[cp := NewChunk(gen, cp)], cp)
  }

  /**
   * `ensureChunkAt` adds exactly the chunk of `p`, keeps every block of
   * the existing chunks, fills the new chunk with generated blocks, and
   * marks the new chunk and every existing chunk next to it.
   */
  lemma EnsureAtEffect(gen: Terrain, m: ChunkMap, p: Vec3)
    ensures EnsureAt(gen, m, p).Keys == m.Keys + {ChunkPos(p)}
    ensures Evolves(gen, m, EnsureAt(gen, m, p))
    ensures EnsureAt(gen, m, p)[ChunkPos(p)].cache == MarkedCache || ChunkPos(p) in m
    ensures ChunkPos(p) !in m ==>
              forall o | o in m :: EnsureAt(gen, m, p)[o].cache == if Near(o, ChunkPos(p)) then MarkedCache else m[o].cache
  {
  }

  /** The chunks after `ensureChunkAt(p)`: those before and the chunk of `p`. */
  lemma EnsureAtKeys(gen: Terrain, m: ChunkMap, p: Vec3)
    ensures EnsureAt(gen, m, p).Keys == m.Keys + {ChunkPos(p)}
  {
    EnsureAtEffect(gen, m, p);
  }

  /** A second `ensureChunkAt` at a position of the same chunk changes nothing. */
  lemma EnsureAtIdempotent(gen: Terrain, m: ChunkMap, p: Vec3, q: Vec3)
    requires ChunkPos(q) == ChunkPos(p)
    ensures EnsureAt(gen, EnsureAt(gen, m, p), q) == EnsureAt(gen, m, p)
  {
    EnsureAtEffect(gen, m, p);
  }

  /** The offset `d` (in blocks) comes before the current offset `(dx, dy, dz) * chunkSize` in the `dz, dy, dx` loop order. */
  predicate Before(d: Vec3, dz: int, dy: int, dx: int)
  {
    d.z < ChunkSize * dz
    || (d.z == ChunkSize * dz && (d.y < ChunkSize * dy || (d.y == ChunkSize * dy && d.x < ChunkSize * dx)))
  }

  /** The chunks part way through the neighbour loop of `ensureChunkAt`: the offsets before `(dx, dy, dz)` are marked. */
  function MarkPartial(m: ChunkMap, cp: Vec3, dz: int, dy: int, dx: int): ChunkMap
  {
    map o | o in m :: if Near(o, cp) && Before(Sub(o, cp), dz, dy, dx) then Mark(m[o]) else m[o]
  }

  predicate AllAligned(m: ChunkMap)
  {
    forall o | o in m :: Aligned(o)
  }

  lemma MarkPartialStart(m: ChunkMap, cp: Vec3)
    ensures MarkPartial(m, cp, -1, -1, -1) == m
  {
  }

  /** An aligned offset near zero is, per axis, -1, 0 or 1 chunk. */
  lemma NearOffset(o: Vec3, cp: Vec3)
    requires Aligned(o) && Aligned(cp) && Near(o, cp)
    ensures o.x - cp.x in {-ChunkSize, 0, ChunkSize}
    ensures o.y - cp.y in {-ChunkSize, 0, ChunkSize}
    ensures o.z - cp.z in {-ChunkSize, 0, ChunkSize}
  {
    assert o.x == ChunkSize * (o.x / ChunkSize) && cp.x == ChunkSize * (cp.x / ChunkSize);
    assert o.y == ChunkSize * (o.y / ChunkSize) && cp.y == ChunkSize * (cp.y / ChunkSize);
    assert o.z == ChunkSize * (o.z / ChunkSize) && cp.z == ChunkSize * (cp.z / ChunkSize);
  }

  /** One iteration of the neighbour loop marks the chunk at offset `(dx, dy, dz)`, if it exists, and nothing else. */
  lemma MarkPartialStep(m: ChunkMap, cp: Vec3, dz: int, dy: int, dx: int)
    requires AllAligned(m) && Aligned(cp)
    requires -1 <= dz <= 1 && -1 <= dy <= 1 && -1 <= dx <= 1
    ensures var q := Add(cp, Scale(Vec3(dx, dy, dz), ChunkSize));
            var before := MarkPartial(m, cp, dz, dy, dx);
            MarkPartial(m, cp, dz, dy, dx + 1) == if q in m then before[q := Mark(before[q])] else before
  {
    var q := Add(cp, Scale(Vec3(dx, dy, dz), ChunkSize));
    forall o | o in m && Near(o, cp)
      ensures Before(Sub(o, cp), dz, dy, dx + 1) <==> Before(Sub(o, cp), dz, dy, dx) || o == q
    {
      NearOffset(o, cp);
    }
  }

  lemma MarkPartialNextRow(m: ChunkMap, cp: Vec3, dz: int, dy: int)
    requires AllAligned(m) && Aligned(cp) && -1 <= dy <= 1
    ensures MarkPartial(m, cp, dz, dy, 2) == MarkPartial(m, cp, dz, dy + 1, -1)
  {
    forall o | o in m && Near(o, cp)
      ensures Before(Sub(o, cp), dz, dy, 2) <==> Before(Sub(o, cp), dz, dy + 1, -1)
    {
      NearOffset(o, cp);
    }
  }

  lemma MarkPartialNextSlab(m: ChunkMap, cp: Vec3, dz: int)
    requires AllAligned(m) && Aligned(cp) && -1 <= dz <= 1
    ensures MarkPartial(m, cp, dz, 2, -1) == MarkPartial(m, cp, dz + 1, -1, -1)
  {
    forall o | o in m && Near(o, cp)
      ensures Before(Sub(o, cp), dz, 2, -1) <==> Before(Sub(o, cp), dz + 1, -1, -1)
    {
      NearOffset(o, cp);
    }
  }

  /** After all 27 offsets, every chunk next to `cp` is marked. */
  lemma MarkPartialDone(m: ChunkMap, cp: Vec3)
    ensures MarkPartial(m, cp, 2, -1, -1) == MarkNear(m, cp)
  {
  }

  // ---- the box corners of `World::markDirty` ------------------------------------

  /** The eight offsets `(dx, dy, dz)` with every component -1 or 1, in the order of the `dx, dy, dz` loops. */
  const CornerOrder: seq<Vec3> :=
    [Vec3(-1, -1, -1), Vec3(-1, -1, 1), Vec3(-1, 1, -1), Vec3(-1, 1, 1),
     Vec3(1, -1, -1), Vec3(1, -1, 1), Vec3(1, 1, -1), Vec3(1, 1, 1)]

  /**
   * How many offsets the loops have visited when they reach `(dx, dy, dz)`;
   * it also counts correctly when a loop variable has just run past 1.
   */
  function CornerIndex(dx: int, dy: int, dz: int): int
  {
    2 * (dx + 1) + (dy + 1) + (dz + 1) / 2
  }

  lemma CornerIndexAt(dx: int, dy: int, dz: int)
    requires dx in {-1, 1} && dy in {-1, 1} && dz in {-1, 1}
    ensures 0 <= CornerIndex(dx, dy, dz) < 8
    ensures CornerOrder[CornerIndex(dx, dy, dz)] == Vec3(dx, dy, dz)
  {
  }

  /** `a + s * r` for a sign `s` of -1 or 1, written without a product of two variables. */
  function Toward(a: int, s: int, r: int): int
  {
    if s < 0 then a - r else a + r
  }

  /** The corner `p + c * r` of the box of radius `r` around `p`, for `c` one of the eight offsets. */
  function BoxCorner(p: Vec3, c: Vec3, r: int): Vec3
  {
    Vec3(Toward(p.x, c.x, r), Toward(p.y, c.y, r), Toward(p.z, c.z, r))
  }

  /** For each of the eight offsets, `BoxCorner` is `np = p + glm::ivec3(dx, dy, dz) * rad`. */
  lemma BoxCornerScaled(p: Vec3, c: Vec3, r: int)
    requires c in CornerOrder
    ensures BoxCorner(p, c, r) == Add(p, Scale(c, r))
  {
  }

  /** The origin of the chunk holding the corner `p + c * r`. */
  function CornerChunk(p: Vec3, c: Vec3, r: int): Vec3
  {
    ChunkPos(BoxCorner(p, c, r))
  }

  /** The chunks of the first `n` corners of the box of radius `r` around `p`, in loop order. */
  function CornerChunks(p: Vec3, r: int, n: nat): set<Vec3>
    requires n <= 8
  {
    if n == 0 then {} else CornerChunks(p, r, n - 1) + {CornerChunk(p, CornerOrder[n - 1], r)}
  }

  lemma {:induction false} CornerChunksHas(p: Vec3, r: int, n: nat, i: int)
    requires 0 <= i < n <= 8
    ensures CornerChunk(p, CornerOrder[i], r) in CornerChunks(p, r, n)
  {
    if i < n - 1 {
      CornerChunksHas(p, r, n - 1, i);
    }
  }

  /** The chunks of the eight corners `p + (±r, ±r, ±r)`: one round of `markDirty`. */
  function RoundCorners(p: Vec3, r: int): set<Vec3>
  {
    CornerChunks(p, r, 8)
  }

  /** The radius of round `k`, counting from 0: `rad` less `k` times the chunk size. */
  function RoundRadius(rad: int, k: int): int
  {
    rad - ChunkSize * k
  }

  /** The chunks of the corners of the first `n` rounds, at radii `rad, rad - chunkSize, ...`. */
  function RoundsCorners(p: Vec3, rad: int, n: nat): set<Vec3>
  {
    if n == 0 then {} else RoundsCorners(p, rad, n - 1) + RoundCorners(p, RoundRadius(rad, n - 1))
  }

  /** The chunk of every corner of every one of the first `n` rounds is in `RoundsCorners`. */
  lemma {:induction false} RoundsCornersHas(p: Vec3, rad: int, n: nat, k: int, i: int)
    requires 0 <= k < n && 0 <= i < 8
    ensures CornerChunk(p, CornerOrder[i], RoundRadius(rad, k)) in RoundsCorners(p, rad, n)
  {
    var r := RoundRadius(rad, n - 1);
    assert RoundsCorners(p, rad, n) == RoundsCorners(p, rad, n - 1) + RoundCorners(p, r);
    if k < n - 1 {
      RoundsCornersHas(p, rad, n - 1, k, i);
    } else {
      assert RoundRadius(rad, k) == r;
      CornerChunksHas(p, r, 8, i);
    }
  }

  /** The side, -1 or 1, of `a` whose neighbour shares a chunk with `b`, for `b` within 1 of `a`. */
  function NearSign(a: int, b: int): (s: int)
    requires a - 1 <= b <= a + 1
    ensures s in {-1, 1} && ChunkCoord(Toward(a, s, 1)) == ChunkCoord(b)
  {
    NearCoordCovered(a, b);
    if ChunkCoord(b) == ChunkCoord(a - 1) then -1 else 1
  }

  /**
   * With radius 1 there is one round, and every position within 1 of `p`
   * on each axis lies in one of the eight corner chunks.
   */
  lemma {:induction false} RadiusOneCoversNeighbours(p: Vec3, q: Vec3)
    requires -1 <= q.x - p.x <= 1 && -1 <= q.y - p.y <= 1 && -1 <= q.z - p.z <= 1
    ensures ChunkPos(q) in RoundsCorners(p, 1, 1)
  {
    var dx := NearSign(p.x, q.x);
    var dy := NearSign(p.y, q.y);
    var dz := NearSign(p.z, q.z);
    CornerIndexAt(dx, dy, dz);
    var i := CornerIndex(dx, dy, dz);
    var corner := BoxCorner(p, Vec3(dx, dy, dz), 1);
    assert ChunkPos(corner) == ChunkPos(q);
    assert RoundRadius(1, 0) == 1;
    RoundsCornersHas(p, 1, 1, 0, i);
  }

  // ---- `World::markDirty` on values ----------------------------------------

  /** One corner of `markDirty`: `ensureChunkAt(np)`, then the chunk of `np` is marked. */
  function MarkCornerAt(gen: Terrain, m: ChunkMap, np: Vec3): ChunkMap
  {
    EnsureAtEffect(gen, m, np);
    var m1 := EnsureAt(gen, m, np);
    m1[ChunkPos(np) := Mark(m1[ChunkPos(np)])]
  }

  /** A corner creates at most the chunk of `np`, and leaves it marked. */
  lemma MarkCornerAtEffect(gen: Terrain, m: ChunkMap, np: Vec3)
    ensures MarkCornerAt(gen, m, np).Keys == m.Keys + {ChunkPos(np)}
    ensures Evolves(gen, m, MarkCornerAt(gen, m, np))
    ensures MarkCornerAt(gen, m, np)[ChunkPos(np)].cache == MarkedCache
  {
    EnsureAtEffect(gen, m, np);
    MarkOneEvolves(gen, EnsureAt(gen, m, np), ChunkPos(np));
    EvolvesTransitive(gen, m, EnsureAt(gen, m, np), MarkCornerAt(gen, m, np));
  }

  /** The chunks after the first `n` corners of the round at radius `r`, in loop order. */
  function CornersDone(gen: Terrain, m: ChunkMap, p: Vec3, r: int, n: nat): ChunkMap
    requires n <= 8
  {
    if n == 0 then m else MarkCornerAt(gen, CornersDone(gen, m, p, r, n - 1), BoxCorner(p, CornerOrder[n - 1], r))
  }

  /** The chunks after the first `n` rounds, at radii `rad, rad - chunkSize, ...`. */
  function RoundsDone(gen: Terrain, m: ChunkMap, p: Vec3, rad: int, n: nat): ChunkMap
  {
    if n == 0 then m else CornersDone(gen, RoundsDone(gen, m, p, rad, n - 1), p, RoundRadius(rad, n - 1), 8)
  }

  /** Round `k` of `markDirty` is the eight corners at radius `RoundRadius(rad, k)` after the first `k` rounds. */
  lemma RoundsDoneNext(gen: Terrain, m: ChunkMap, p: Vec3, rad: int, k: nat)
    ensures RoundsDone(gen, m, p, rad, k + 1) == CornersDone(gen, RoundsDone(gen, m, p, rad, k), p, RoundRadius(rad, k), 8)
  {
  }

  /** A loop that stops at the first negative radius has run `RoundCount(rad)` rounds. */
  lemma RoundCountUnique(rad: int, k: nat)
    requires RoundRadius(rad, k) < 0 && (k == 0 || RoundRadius(rad, k - 1) >= 0)
    ensures k == RoundCount(rad)
  {
    if k > 0 {
      DivModUnique(rad, ChunkSize, k - 1, RoundRadius(rad, k - 1));
    }
  }

  /** The number of rounds of `while (rad >= 0) { ...; rad -= chunkSize; }`. */
  function RoundCount(rad: int): (n: nat)
    ensures rad < 0 ==> n == 0
    ensures rad >= 0 ==> RoundRadius(rad, n - 1) >= 0 && RoundRadius(rad, n) < 0
  {
    if rad < 0 then 0 else rad / ChunkSize + 1
  }

  /** `markDirty(p, rad)` on values. */
  function MarkDirtyAt(gen: Terrain, m: ChunkMap, p: Vec3, rad: int): ChunkMap
  {
    RoundsDone(gen, m, p, rad, RoundCount(rad))
  }

  /** The first `n` corners create the chunks of their corners and no others. */
  lemma {:induction false} CornersDoneKeys(gen: Terrain, m: ChunkMap, p: Vec3, r: int, n: nat, o: Vec3)
    requires n <= 8
    ensures o in CornersDone(gen, m, p, r, n) <==> o in m || o in CornerChunks(p, r, n)
  {
    if n > 0 {
      CornersDoneKeys(gen, m, p, r, n - 1, o);
      MarkCornerAtEffect(gen, CornersDone(gen, m, p, r, n - 1), BoxCorner(p, CornerOrder[n - 1], r));
    }
  }

  /** The first `n` corners only create and mark chunks. */
  lemma {:induction false} CornersDoneEvolves(gen: Terrain, m: ChunkMap, p: Vec3, r: int, n: nat)
    requires n <= 8
    ensures Evolves(gen, m, CornersDone(gen, m, p, r, n))
  {
    if n > 0 {
      var prev := CornersDone(gen, m, p, r, n - 1);
      var next := MarkCornerAt(gen, prev, BoxCorner(p, CornerOrder[n - 1], r));
      assert CornersDone(gen, m, p, r, n) == next;
      CornersDoneEvolves(gen, m, p, r, n - 1);
      MarkCornerAtEffect(gen, prev, BoxCorner(p, CornerOrder[n - 1], r));
      EvolvesTransitive(gen, m, prev, next);
    }
  }

  /** After the first `n` corners, the chunk of each of them is marked. */
  lemma {:induction false} CornersDoneMarked(gen: Terrain, m: ChunkMap, p: Vec3, r: int, n: nat, o: Vec3)
    requires n <= 8 && o in CornerChunks(p, r, n)
    ensures o in CornersDone(gen, m, p, r, n) && CornersDone(gen, m, p, r, n)[o].cache == MarkedCache
  {
    var prev := CornersDone(gen, m, p, r, n - 1);
    var np := BoxCorner(p, CornerOrder[n - 1], r);
    var next := MarkCornerAt(gen, prev, np);
    assert CornersDone(gen, m, p, r, n) == next;
    MarkCornerAtEffect(gen, prev, np);
    if o != ChunkPos(np) {
      CornersDoneMarked(gen, m, p, r, n - 1, o);
      EvolvesKeepsMarked(gen, prev, next, o);
    }
  }

  /** The first `n` rounds create the chunks of their corners and no others. */
  lemma {:induction false} RoundsDoneKeys(gen: Terrain, m: ChunkMap, p: Vec3, rad: int, n: nat, o: Vec3)
    ensures o in RoundsDone(gen, m, p, rad, n) <==> o in m || o in RoundsCorners(p, rad, n)
  {
    if n > 0 {
      RoundsDoneKeys(gen, m, p, rad, n - 1, o);
      CornersDoneKeys(gen, RoundsDone(gen, m, p, rad, n - 1), p, RoundRadius(rad, n - 1), 8, o);
    }
  }

  /** The first `n` rounds only create and mark chunks. */
  lemma {:induction false} RoundsDoneEvolves(gen: Terrain, m: ChunkMap, p: Vec3, rad: int, n: nat)
    ensures Evolves(gen, m, RoundsDone(gen, m, p, rad, n))
  {
    if n > 0 {
      var prev := RoundsDone(gen, m, p, rad, n - 1);
      var next := CornersDone(gen, prev, p, RoundRadius(rad, n - 1), 8);
      assert RoundsDone(gen, m, p, rad, n) == next;
      RoundsDoneEvolves(gen, m, p, rad, n - 1);
      CornersDoneEvolves(gen, prev, p, RoundRadius(rad, n - 1), 8);
      EvolvesTransitive(gen, m, prev, next);
    }
  }

  /** After the first `n` rounds, the chunk of each of their corners is marked. */
  lemma {:induction false} RoundsDoneMarked(gen: Terrain, m: ChunkMap, p: Vec3, rad: int, n: nat, o: Vec3)
    requires o in RoundsCorners(p, rad, n)
    ensures o in RoundsDone(gen, m, p, rad, n) && RoundsDone(gen, m, p, rad, n)[o].cache == MarkedCache
  {
    var prev := RoundsDone(gen, m, p, rad, n - 1);
    var r := RoundRadius(rad, n - 1);
    if o in RoundCorners(p, r) {
      CornersDoneMarked(gen, prev, p, r, 8, o);
    } else {
      RoundsDoneMarked(gen, m, p, rad, n - 1, o);
      CornersDoneEvolves(gen, prev, p, r, 8);
      EvolvesKeepsMarked(gen, prev, RoundsDone(gen, m, p, rad, n), o);
    }
  }

  /**
   * `markDirty(p, rad)` does nothing for a negative radius; otherwise the
   * chunk of every corner `p + (±r, ±r, ±r)` of every round (see
   * `RoundsCornersHas`) exists and is dirty afterwards, no other chunk is
   * created, no block changes and other chunks are at most marked.
   */
  lemma MarkDirtyEffect(gen: Terrain, m: ChunkMap, p: Vec3, rad: int)
    ensures rad < 0 ==> MarkDirtyAt(gen, m, p, rad) == m
    ensures MarkDirtyAt(gen, m, p, rad).Keys == m.Keys + RoundsCorners(p, rad, RoundCount(rad))
    ensures Evolves(gen, m, MarkDirtyAt(gen, m, p, rad))
    ensures forall o | o in RoundsCorners(p, rad, RoundCount(rad)) :: MarkDirtyAt(gen, m, p, rad)[o].cache == MarkedCache
  {
    forall o ensures o in MarkDirtyAt(gen, m, p, rad) <==> o in m || o in RoundsCorners(p, rad, RoundCount(rad)) {
      RoundsDoneKeys(gen, m, p, rad, RoundCount(rad), o);
    }
    RoundsDoneEvolves(gen, m, p, rad, RoundCount(rad));
    forall o | o in RoundsCorners(p, rad, RoundCount(rad)) ensures MarkDirtyAt(gen, m, p, rad)[o].cache == MarkedCache {
      RoundsDoneMarked(gen, m, p, rad, RoundCount(rad), o);
    }
  }

  /**
   * `markDirty(p, 1)`, the call after an edit: the chunk of every position
   * within 1 of `p` on each axis, the edited block's face neighbours among
   * them, exists and is dirty afterwards.
   */
  lemma {:induction false} MarkDirtyOneCoversNeighbours(gen: Terrain, m: ChunkMap, p: Vec3, q: Vec3)
    requires -1 <= q.x - p.x <= 1 && -1 <= q.y - p.y <= 1 && -1 <= q.z - p.z <= 1
    ensures ChunkPos(q) in MarkDirtyAt(gen, m, p, 1)
    ensures MarkDirtyAt(gen, m, p, 1)[ChunkPos(q)].cache == MarkedCache
  {
    RadiusOneCoversNeighbours(p, q);
    RoundsDoneMarked(gen, m, p, 1, 1, ChunkPos(q));
  }

  /** Every corner chunk of a round at radius 17 around `(15, 15, 15)` lies one chunk away on the x axis. */
  lemma {:induction false} CornerChunksOffCentre(n: nat, o: Vec3)
    requires n <= 8 && o in CornerChunks(Vec3(15, 15, 15), 17, n)
    ensures o.x == -ChunkSize || o.x == ChunkSize
  {
    var p := Vec3(15, 15, 15);
    if o in CornerChunks(p, 17, n - 1) {
      CornerChunksOffCentre(n - 1, o);
    } else {
      var c := CornerOrder[n - 1];
      assert o == CornerChunk(p, c, 17);
      if c.x < 0 {
        ChunkCoordUnique(-2, -ChunkSize);
      } else {
        ChunkCoordUnique(32, ChunkSize);
      }
    }
  }

  /**
   * `markDirty(p, rad)` visits the chunks of the corners only, so for a
   * radius whose remainder modulo the chunk size is large it can skip the
   * chunk between them: with `rad == 17` there is one round, its corners
   * `15 +- 17` lie in the chunks at -32 and 32 on every axis, and the chunk
   * at the origin, which holds `p == (15, 15, 15)` itself, is not a corner
   * chunk, although the documented set `RadiusChunks` holds it. It is marked
   * only when creating a missing corner chunk marks it as a neighbour;
   * `MarkDirtyRadiusGapExisting` shows the case where no corner chunk is missing.
   */
  lemma MarkDirtyRadiusGap()
    ensures RoundCount(17) == 1
    ensures ChunkPos(Vec3(15, 15, 15)) == Vec3(0, 0, 0)
    ensures Vec3(0, 0, 0) !in RoundsCorners(Vec3(15, 15, 15), 17, RoundCount(17))
    ensures Vec3(0, 0, 0) in RadiusChunks(Vec3(15, 15, 15), 17)
  {
    RadiusChunksComplete(Vec3(15, 15, 15), 17, Vec3(15, 15, 15));
    RoundCountUnique(17, 1);
    ChunkPosUnique(Vec3(15, 15, 15), Vec3(0, 0, 0));
    assert RoundsCorners(Vec3(15, 15, 15), 17, 1) == CornerChunks(Vec3(15, 15, 15), 17, 8);
    if Vec3(0, 0, 0) in CornerChunks(Vec3(15, 15, 15), 17, 8) {
      CornerChunksOffCentre(8, Vec3(0, 0, 0));
    }
  }

  // ---- the radius `markDirty` documents -----------------------------------

  /** `q` lies within `rad` of `p` on every axis. */
  predicate WithinRadius(p: Vec3, q: Vec3, rad: int)
  {
    -rad <= q.x - p.x <= rad && -rad <= q.y - p.y <= rad && -rad <= q.z - p.z <= rad
  }

  /** The chunk coordinates from `lo` up to `hi`, one chunk apart. */
  function AxisChunks(lo: int, hi: int): set<int>
    decreases hi - lo
  {
    if hi < lo then {} else {lo} + AxisChunks(lo + ChunkSize, hi)
  }

  /** Starting from a chunk coordinate, `AxisChunks` holds exactly the chunk coordinates from `lo` to `hi`. */
  lemma {:induction false} AxisChunksIff(lo: int, hi: int, c: int)
    requires lo % ChunkSize == 0
    ensures c in AxisChunks(lo, hi) <==> c % ChunkSize == 0 && lo <= c <= hi
    decreases hi - lo
  {
    if hi >= lo {
      MultipleAligned(lo / ChunkSize + 1);
      assert (lo + ChunkSize) % ChunkSize == 0;
      AxisChunksIff(lo + ChunkSize, hi, c);
      if c % ChunkSize == 0 && lo < c < lo + ChunkSize {
        AlignedNear(c, lo);
      }
    }
  }

  /** On one axis: the chunk coordinate of every position of `a - rad .. a + rad` is in `AxisChunks`. */
  lemma AxisChunksHas(a: int, rad: int, b: int)
    requires a - rad <= b <= a + rad
    ensures ChunkCoord(b) in AxisChunks(ChunkCoord(a - rad), a + rad)
  {
    ChunkCoordMonotone(a - rad, b);
    AxisChunksIff(ChunkCoord(a - rad), a + rad, ChunkCoord(b));
  }

  /** On one axis: a position of `a - rad .. a + rad` whose chunk coordinate is `c`, one of `AxisChunks`. */
  function AxisWitness(a: int, rad: int, c: int): (b: int)
    requires rad >= 0 && c in AxisChunks(ChunkCoord(a - rad), a + rad)
    ensures a - rad <= b <= a + rad && ChunkCoord(b) == c
  {
    var lo := ChunkCoord(a - rad);
    AxisChunksIff(lo, a + rad, c);
    if c >= a - rad then
      ChunkCoordUnique(c, c);
      c
    else
      AlignedNear(c, lo);
      a - rad
  }

  /**
   * The chunks `markDirty(p, rad)` is documented to mark ("all blocks in a
   * given radius"): those of the chunk coordinates from the chunk of
   * `p - rad` up to `p + rad` on every axis, none for a negative radius.
   */
  function RadiusChunks(p: Vec3, rad: int): set<Vec3>
  {
    if rad < 0 then {}
    else
      var xs := AxisChunks(ChunkCoord(p.x - rad), p.x + rad);
      var ys := AxisChunks(ChunkCoord(p.y - rad), p.y + rad);
      var zs := AxisChunks(ChunkCoord(p.z - rad), p.z + rad);
      set x, y, z | x in xs && y in ys && z in zs :: Vec3(x, y, z)
  }

  /** A chunk is in `RadiusChunks` when each of its coordinates is among that axis' chunk coordinates. */
  lemma RadiusChunksMember(p: Vec3, rad: int, o: Vec3)
    ensures o in RadiusChunks(p, rad) <==>
              rad >= 0 && o.x in AxisChunks(ChunkCoord(p.x - rad), p.x + rad)
              && o.y in AxisChunks(ChunkCoord(p.y - rad), p.y + rad)
              && o.z in AxisChunks(ChunkCoord(p.z - rad), p.z + rad)
  {
  }

  /** `RadiusChunks` holds the chunk of every position within `rad` of `p`. */
  lemma RadiusChunksComplete(p: Vec3, rad: int, q: Vec3)
    requires WithinRadius(p, q, rad)
    ensures ChunkPos(q) in RadiusChunks(p, rad)
  {
    AxisChunksHas(p.x, rad, q.x);
    AxisChunksHas(p.y, rad, q.y);
    AxisChunksHas(p.z, rad, q.z);
    RadiusChunksMember(p, rad, ChunkPos(q));
  }

  /** Every chunk of `RadiusChunks` holds a position within `rad` of `p`. */
  lemma RadiusChunksSound(p: Vec3, rad: int, o: Vec3)
    requires o in RadiusChunks(p, rad)
    ensures exists q :: WithinRadius(p, q, rad) && ChunkPos(q) == o
  {
    RadiusChunksMember(p, rad, o);
    var q := Vec3(AxisWitness(p.x, rad, o.x), AxisWitness(p.y, rad, o.y), AxisWitness(p.z, rad, o.z));
    assert WithinRadius(p, q, rad) && ChunkPos(q) == o;
  }

  /** Every chunk of the first `n` corners of a round at radius `r` holds a corner `r` away from `p`. */
  lemma {:induction false} CornerChunksAt(p: Vec3, r: int, n: nat, o: Vec3)
    requires n <= 8 && o in CornerChunks(p, r, n)
    ensures exists i | 0 <= i < n :: o == CornerChunk(p, CornerOrder[i], r)
  {
    if o in CornerChunks(p, r, n - 1) {
      CornerChunksAt(p, r, n - 1, o);
    } else {
      assert o == CornerChunk(p, CornerOrder[n - 1], r);
    }
  }

  /**
   * The corner chunks `markDirty(p, rad)` visits all lie within the radius.
   * (A corner chunk it has to create also marks its existing neighbours,
   * which may lie outside.)
   */
  lemma {:induction false} MarkDirtyWithinRadius(p: Vec3, rad: int, n: nat, o: Vec3)
    requires n <= RoundCount(rad) && o in RoundsCorners(p, rad, n)
    ensures o in RadiusChunks(p, rad)
  {
    if o in RoundsCorners(p, rad, n - 1) {
      MarkDirtyWithinRadius(p, rad, n - 1, o);
    } else {
      var r := RoundRadius(rad, n - 1);
      assert 0 <= r <= rad;
      CornerChunksAt(p, r, 8, o);
      var i :| 0 <= i < 8 && o == CornerChunk(p, CornerOrder[i], r);
      var q := BoxCorner(p, CornerOrder[i], r);
      RadiusChunksComplete(p, rad, q);
    }
  }

  /** With radius 1, the radius of the call after an edit, the corner chunks are exactly the documented chunks. */
  lemma MarkDirtyRadiusOneExact(p: Vec3)
    ensures RoundsCorners(p, 1, RoundCount(1)) == RadiusChunks(p, 1)
  {
    forall o | o in RoundsCorners(p, 1, RoundCount(1))
      ensures o in RadiusChunks(p, 1)
    {
      MarkDirtyWithinRadius(p, 1, RoundCount(1), o);
    }
    forall o | o in RadiusChunks(p, 1)
      ensures o in RoundsCorners(p, 1, RoundCount(1))
    {
      RadiusChunksSound(p, 1, o);
      var q :| WithinRadius(p, q, 1) && ChunkPos(q) == o;
      RadiusOneCoversNeighbours(p, q);
    }
  }

  /** With every corner chunk present, the first `n` corners of a round mark exactly those chunks. */
  lemma {:induction false} CornersDoneExisting(gen: Terrain, m: ChunkMap, p: Vec3, r: int, n: nat, o: Vec3)
    requires n <= 8 && CornerChunks(p, r, n) <= m.Keys
    ensures CornersDone(gen, m, p, r, n).Keys == m.Keys
    ensures o in m ==> CornersDone(gen, m, p, r, n)[o] == if o in CornerChunks(p, r, n) then Mark(m[o]) else m[o]
  {
    if n > 0 {
      var prev := CornersDone(gen, m, p, r, n - 1);
      var np := BoxCorner(p, CornerOrder[n - 1], r);
      CornersDoneExisting(gen, m, p, r, n - 1, o);
      assert ChunkPos(np) in prev;
      var next := prev[ChunkPos(np) := Mark(prev[ChunkPos(np)])];
      assert CornersDone(gen, m, p, r, n) == next;
    }
  }

  /** With every corner chunk of the rounds present, the first `n` rounds mark exactly those chunks. */
  lemma {:induction false} RoundsDoneExisting(gen: Terrain, m: ChunkMap, p: Vec3, rad: int, n: nat, o: Vec3)
    requires RoundsCorners(p, rad, n) <= m.Keys
    ensures RoundsDone(gen, m, p, rad, n).Keys == m.Keys
    ensures o in m ==> RoundsDone(gen, m, p, rad, n)[o] == if o in RoundsCorners(p, rad, n) then Mark(m[o]) else m[o]
  {
    if n > 0 {
      var prev := RoundsDone(gen, m, p, rad, n - 1);
      var r := RoundRadius(rad, n - 1);
      RoundsDoneExisting(gen, m, p, rad, n - 1, o);
      CornersDoneExisting(gen, prev, p, r, 8, o);
    }
  }

  /**
   * When every corner chunk already exists, `markDirty(p, rad)` creates no
   * chunk and marks the corner chunks and no other: the neighbour loop of
   * `ensureChunkAt` runs only for a corner chunk it has to create.
   */
  lemma MarkDirtyExisting(gen: Terrain, m: ChunkMap, p: Vec3, rad: int, o: Vec3)
    requires RoundsCorners(p, rad, RoundCount(rad)) <= m.Keys
    ensures MarkDirtyAt(gen, m, p, rad).Keys == m.Keys
    ensures o in m ==> MarkDirtyAt(gen, m, p, rad)[o] == if o in RoundsCorners(p, rad, RoundCount(rad)) then Mark(m[o]) else m[o]
  {
    RoundsDoneExisting(gen, m, p, rad, RoundCount(rad), o);
  }

  /** When every corner chunk already exists, `markDirty` leaves every chunk outside the radius as it was. */
  lemma MarkDirtyExistingWithinRadius(gen: Terrain, m: ChunkMap, p: Vec3, rad: int, o: Vec3)
    requires RoundsCorners(p, rad, RoundCount(rad)) <= m.Keys
    requires o in m && o !in RadiusChunks(p, rad)
    ensures o in MarkDirtyAt(gen, m, p, rad) && MarkDirtyAt(gen, m, p, rad)[o] == m[o]
  {
    MarkDirtyExisting(gen, m, p, rad, o);
    if o in RoundsCorners(p, rad, RoundCount(rad)) {
      MarkDirtyWithinRadius(p, rad, RoundCount(rad), o);
    }
  }

  /**
   * `markDirty(p, 1)` on a world that holds every chunk within 1 of `p`
   * marks exactly those chunks, as documented, and creates none.
   */
  lemma MarkDirtyRadiusOneExisting(gen: Terrain, m: ChunkMap, p: Vec3)
    requires RadiusChunks(p, 1) <= m.Keys
    ensures MarkDirtyAt(gen, m, p, 1) == map o | o in m :: if o in RadiusChunks(p, 1) then Mark(m[o]) else m[o]
  {
    MarkDirtyRadiusOneExact(p);
    forall o | o in m
      ensures o in MarkDirtyAt(gen, m, p, 1) && MarkDirtyAt(gen, m, p, 1)[o] == if o in RadiusChunks(p, 1) then Mark(m[o]) else m[o]
    {
      MarkDirtyExisting(gen, m, p, 1, o);
    }
    MarkDirtyExisting(gen, m, p, 1, p);
  }

  /**
   * The gap on a world: when the eight corner chunks of `markDirty((15, 15, 15), 17)`
   * and the chunk at the origin exist, the call leaves the chunk at the
   * origin, which holds `p`, exactly as it was (a clean chunk stays clean).
   */
  lemma MarkDirtyRadiusGapExisting(gen: Terrain, m: ChunkMap)
    requires forall i | 0 <= i < 8 :: CornerChunk(Vec3(15, 15, 15), CornerOrder[i], 17) in m
    requires Vec3(0, 0, 0) in m
    ensures Vec3(0, 0, 0) in MarkDirtyAt(gen, m, Vec3(15, 15, 15), 17)
    ensures MarkDirtyAt(gen, m, Vec3(15, 15, 15), 17)[Vec3(0, 0, 0)] == m[Vec3(0, 0, 0)]
  {
    MarkDirtyRadiusGap();
    GapCornersExist(m);
    MarkDirtyExisting(gen, m, Vec3(15, 15, 15), 17, Vec3(0, 0, 0));
  }

  /** The eight corner chunks of the single round at radius 17 are all the chunks that round visits. */
  lemma GapCornersExist(m: ChunkMap)
    requires forall i | 0 <= i < 8 :: CornerChunk(Vec3(15, 15, 15), CornerOrder[i], 17) in m
    ensures RoundsCorners(Vec3(15, 15, 15), 17, RoundCount(17)) <= m.Keys
  {
    var p := Vec3(15, 15, 15);
    RoundCountUnique(17, 1);
    assert RoundsCorners(p, 17, 1) == CornerChunks(p, 17, 8);
    forall o | o in CornerChunks(p, 17, 8)
      ensures o in m
    {
      CornerChunksAt(p, 17, 8, o);
    }
  }

  // ---- writing one block ----------------------------------------------------

  /**
   * `queryBlockMutable(p).mat = v` on values, once the chunk of `p` exists:
   * block `p - chunkPos(p)` of that chunk becomes `v`, its cache is kept.
   */
  function SetAt(m: ChunkMap, p: Vec3, v: int): ChunkMap
  {
    var cp := ChunkPos(p);
    if cp in m && |m[cp].blocks| == Volume then
      IndexInRange(Sub(p, cp));
      m[cp := m[cp].(blocks := m[cp].blocks[Index(Sub(p, cp)) := v])]
    else m
  }

  /** After the write, `p` reads `v` and every other position reads as before. */
  lemma SetAtReads(m: ChunkMap, p: Vec3, v: int, q: Vec3)
    requires ChunkPos(p) in m && |m[ChunkPos(p)].blocks| == Volume
    ensures BlockIn(BlocksOf(SetAt(m, p, v)), q) == if q == p then v else BlockIn(BlocksOf(m), q)
  {
    assert BlocksOf(SetAt(m, p, v)) == WriteBlock(BlocksOf(m), p, v);
    ReadAfterWrite(BlocksOf(m), p, v, q);
  }

  /** The write changes no cache and creates no chunk. */
  lemma SetAtKeepsCaches(m: ChunkMap, p: Vec3, v: int)
    ensures SetAt(m, p, v).Keys == m.Keys
    ensures forall o | o in m :: SetAt(m, p, v)[o].cache == m[o].cache
  {
  }

  /** Replacing the cache of an existing chunk leaves the blocks of the world as they are. */
  lemma BlocksOfNewCache(m: ChunkMap, o: Vec3, c: CacheState)
    requires o in m
    ensures BlocksOf(m[o := m[o].(cache := c)]) == BlocksOf(m)
  {
  }
}
