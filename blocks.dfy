/**
 * Blocks and materials of the voxel world, and the value-level view of a
 * world's block storage that the imperative model is specified against.
 *
 * A block is its signed material index (`Block::mat`): 0 is air, a positive
 * index names an opaque (solid) material, a negative one a translucent
 * material.
 */
module Blocks {
  import opened Wrappers
  import opened Coords

  /** The material index of `Block::air()`. */
  const Air: int := 0

  predicate IsAir(m: int) { m == 0 }

  predicate IsSolid(m: int) { m > 0 }

  predicate IsTranslucent(m: int) { m < 0 }

  /** `Material`: the fields of it that the world logic uses. */
  datatype Material = Material(name: string, index: int, shader: string)

  /**
   * The blocks of a world as a value: every registered chunk origin mapped
   * to the chunk's `size^3` material indices in flat order.
   */
  type Snapshot = map<Vec3, seq<int>>

  /** Every chunk of the snapshot sits at an aligned origin and holds a full cube. */
  predicate WellFormed(snap: Snapshot)
  {
    forall o | o in snap :: Aligned(o) && |snap[o]| == Volume
  }

  /**
   * The block at world position `p`: the entry at local position
   * `p - chunkPos(p)` of the chunk holding `p`, or air when that chunk
   * does not exist.
   */
  function BlockIn(snap: Snapshot, p: Vec3): (r: int)
    ensures ChunkPos(p) !in snap ==> r == Air
  {
    var cp := ChunkPos(p);
    if cp in snap && |snap[cp]| == Volume then
      IndexInRange(Sub(p, cp));
      snap[cp][Index(Sub(p, cp))]
    else Air
  }

  /** The empty world is air everywhere. */
  lemma EmptyIsAir(p: Vec3)
    ensures BlockIn(map[], p) == Air
  {
  }

  /** The snapshot after writing material `m` at `p`, whose chunk must exist. */
  function WriteBlock(snap: Snapshot, p: Vec3, m: int): (r: Snapshot)
    requires ChunkPos(p) in snap && |snap[ChunkPos(p)]| == Volume
    ensures r.Keys == snap.Keys
    ensures WellFormed(snap) ==> WellFormed(r)
  {
    var cp := ChunkPos(p);
    IndexInRange(Sub(p, cp));
    snap[cp := snap[cp][Index(Sub(p, cp)) := m]]
  }

  /** A write is read back at its position and changes no other position. */
  lemma {:induction false} ReadAfterWrite(snap: Snapshot, p: Vec3, m: int, q: Vec3)
    requires ChunkPos(p) in snap && |snap[ChunkPos(p)]| == Volume
    ensures BlockIn(WriteBlock(snap, p, m), q) == if q == p then m else BlockIn(snap, q)
  {
    var cp, cq := ChunkPos(p), ChunkPos(q);
    IndexInRange(Sub(p, cp));
    IndexInRange(Sub(q, cq));
    if cq == cp && q != p {
      if Index(Sub(q, cq)) == Index(Sub(p, cp)) {
        IndexInjective(Sub(q, cq), Sub(p, cp));
      }
    }
  }

  /**
   * A terrain generator: the material it picks for every world position
   * (a total map from positions to materials).
   */
  type Terrain = g: imap<Vec3, int> | forall p :: p in g ghost witness imap p: Vec3 | true :: Air

  /**
   * The blocks an abstract terrain generator `gen` puts into the chunk at
   * origin `o`: block `j` holds `gen` of its world position.
   */
  function Generated(gen: Terrain, o: Vec3): (r: seq<int>)
    ensures |r| == Volume
  {
    GeneratedUpTo(gen, o, Volume)
  }

  /** The first `n` blocks `generate` writes into the chunk at `o`, in index order. */
  function GeneratedUpTo(gen: Terrain, o: Vec3, n: nat): (r: seq<int>)
    ensures |r| == n && forall j | 0 <= j < n :: r[j] == gen[Add(o, Decode(j))]
  {
    if n == 0 then [] else GeneratedUpTo(gen, o, n - 1) + [gen[Add(o, Decode(n - 1))]]
  }

  /** Inside a generated chunk, the block at every world position is the generator's value there. */
  lemma {:induction false} GeneratedReads(snap: Snapshot, gen: Terrain, p: Vec3)
    requires ChunkPos(p) in snap && snap[ChunkPos(p)] == Generated(gen, ChunkPos(p))
    ensures BlockIn(snap, p) == gen[p]
  {
    var cp := ChunkPos(p);
    IndexInRange(Sub(p, cp));
    DecodeIndex(Sub(p, cp));
    assert Add(cp, Sub(p, cp)) == p;
  }

  /**
   * `s1` arises from `s0` by creating and generating chunks only: every
   * chunk of `s0` is kept with its blocks, and every new chunk holds what
   * the generator produces for it.
   */
  predicate Grown(gen: Terrain, s0: Snapshot, s1: Snapshot)
  {
    s0.Keys <= s1.Keys && forall o | o in s1 :: if o in s0 then s1[o] == s0[o] else s1[o] == Generated(gen, o)
  }

  lemma GrownTransitive(gen: Terrain, a: Snapshot, b: Snapshot, c: Snapshot)
    requires Grown(gen, a, b) && Grown(gen, b, c)
    ensures Grown(gen, a, c)
  {
  }

  /** Growing the world changes no block of a chunk that already existed, and a new chunk reads as generated. */
  lemma {:induction false} GrownBlocks(gen: Terrain, s0: Snapshot, s1: Snapshot, p: Vec3)
    requires Grown(gen, s0, s1)
    ensures ChunkPos(p) in s0 ==> BlockIn(s1, p) == BlockIn(s0, p)
    ensures ChunkPos(p) in s1 && ChunkPos(p) !in s0 ==> BlockIn(s1, p) == gen[p]
  {
    if ChunkPos(p) in s1 && ChunkPos(p) !in s0 {
      GeneratedReads(s1, gen, p);
    }
  }

  /** Opaque material `i` (0-based) has index `i + 1` and translucent material `i` has index `-(i + 1)`. */
  predicate Indexed(materialsOpaque: seq<Material>, materialsTranslucent: seq<Material>)
  {
    (forall i | 0 <= i < |materialsOpaque| :: materialsOpaque[i].index == i + 1)
    && (forall i | 0 <= i < |materialsTranslucent| :: materialsTranslucent[i].index == -(i + 1))
  }

  /** The position of the first material called `name` in `ms`, if any: the search of `getMaterialFromName` over one registry. */
  function FirstNamed(ms: seq<Material>, name: string): (r: Option<nat>)
    ensures r.Some? ==> r.value < |ms| && ms[r.value].name == name
    ensures r.Some? ==> forall j | 0 <= j < r.value :: ms[j].name != name
    ensures r.None? <==> forall j | 0 <= j < |ms| :: ms[j].name != name
  {
    if |ms| == 0 then None
    else if ms[0].name == name then Some(0)
    else match FirstNamed(ms[1..], name)
      case None => None
      case Some(k) => Some(k + 1)
  }
}
