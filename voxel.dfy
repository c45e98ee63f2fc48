/**
 * The chunked voxel world of assignment07: class `Chunk` (Chunk.cc) and
 * class `World` (World.hh, World.cc). They refer to each other (a chunk
 * knows its world, the world owns its chunks), so both live in this module.
 *
 * The world is specified through the ghost field `World.state`, the value
 * of every chunk (its blocks, dirty flag and mesh cache) keyed by chunk
 * origin; `World.Valid()` ties it to the heap, and the methods are proved
 * to change it exactly as the functions of module Marking say.
 */
module Voxel {
  import opened Wrappers
  import opened Coords
  import opened Blocks
  import opened Meshing
  import opened RayMath
  import opened Marking

  /** `Chunk`: `size^3` blocks at a fixed origin, with a dirty flag and a per-material mesh cache. */
  class Chunk {
    /** `chunkPos`: the world position of local block (0, 0, 0). */
    const origin: Vec3
    const size: int
    const world: World
    /** `mBlocks`, resized once in the constructor and then written in place; entry `Index(l)` is the material at local `l`. */
    var blocks: seq<int>
    /** `mIsDirty` */
    var dirty: bool
    /** `mMeshes`: material index to vertex list. */
    var meshes: map<int, seq<Vertex>>

    /** A chunk of the world's grid: edge `chunkSize` and an aligned origin. */
    ghost predicate Placed()
    {
      size == ChunkSize && Aligned(origin)
    }

    /**
     * `Chunk::create` and the constructor: `size^3` blocks, all air (the
     * default `Block`). A misaligned origin is only logged by `create`;
     * here it is a precondition.
     */
    constructor (origin: Vec3, size: int, world: World)
      requires Aligned(origin) && size >= 0
      ensures this.origin == origin && this.size == size && this.world == world
      ensures |blocks| == size * size * size
      ensures forall j | 0 <= j < |blocks| :: blocks[j] == Air
      ensures dirty && meshes == map[]
    {
      if size > 0 {
        MulMono(0, size, size);
        MulMono(0, size * size, size);
      }
      this.origin := origin;
      this.size := size;
      this.world := world;
      blocks := seq(size * size * size, _ => Air);
      dirty := true;
      meshes := map[];
    }

    /** The chunk as a value. */
    ghost function State(): ChunkState
      reads this`blocks, this`dirty, this`meshes
    {
      ChunkState(blocks, CacheState(dirty, meshes))
    }

    /** `contains(w)`: the world position `w` lies inside this chunk. */
    predicate Contains(w: Vec3)
    {
      InCube(Sub(w, origin))
    }

    /** The chunk is the one its world keeps at its origin. */
    ghost predicate Registered()
      reads world
    {
      origin in world.chunks && world.chunks[origin] == this
    }

    /** `block(l)`: the material at local position `l`. */
    function Block(l: Vec3): int
      reads this`blocks
      requires |blocks| == Volume && InCube(l)
    {
      IndexInRange(l);
      blocks[Index(l)]
    }

    /**
     * `Chunk::queryBlock(w)`: the local block when the chunk contains `w`,
     * otherwise the world's answer. Either way it is the world's block at
     * `w`.
     */
    function QueryBlock(w: Vec3): (r: int)
      reads this, world, world.Repr
      requires world.Valid() && Registered()
      ensures r == BlockIn(world.View(), w)
    {
      if Contains(w) then
        ChunkPosUnique(w, origin);
        Block(Sub(w, origin))
      else
        world.QueryBlock(w)
    }

    /** A chunk of a valid world is placed on the grid and holds a full cube of blocks. */
    lemma RegisteredIsFull()
      requires world.Valid() && Registered()
      ensures Placed() && |blocks| == Volume && world.state[origin] == State()
    {
    }

    // ---- meshes -------------------------------------------------------------

    /**
     * `buildMeshFor(mat)`: the vertices of the visible faces of the blocks
     * of material `mat`, in `z, y, x` block order, or null (`None`) when
     * there are none. Neighbours are read through `queryBlock`, so a face
     * on the chunk's border sees the adjacent chunk.
     */
    method BuildMeshFor(mat: int) returns (r: Option<seq<Vertex>>)
      requires world.Valid() && Registered()
      ensures r.None? <==> ChunkVertices(world.View(), origin, blocks, mat) == []
      ensures r.Some? ==> r.value == ChunkVertices(world.View(), origin, blocks, mat)
    {
      RegisteredIsFull();
      var vertices: seq<Vertex> := [];
      for z := 0 to size
        invariant vertices == VerticesUpTo(world.View(), origin, blocks, mat, 1024 * z)
      {
        vertices := BuildMeshSlab(mat, z, vertices);
      }
      IndexCarries(0, 0);
      if vertices == [] {
        return None;
      }
      return Some(vertices);
    }

    /** The `y` and `x` loops of `buildMeshFor` for slice `z`. */
    method BuildMeshSlab(mat: int, z: int, vs: seq<Vertex>) returns (out: seq<Vertex>)
      requires world.Valid() && Registered() && 0 <= z < ChunkSize
      requires vs == VerticesUpTo(world.View(), origin, blocks, mat, 1024 * z)
      ensures out == VerticesUpTo(world.View(), origin, blocks, mat, 1024 * (z + 1))
    {
      RegisteredIsFull();
      out := vs;
      for y := 0 to size
        invariant out == VerticesUpTo(world.View(), origin, blocks, mat, 32 * y + 1024 * z)
      {
        out := BuildMeshRow(mat, y, z, out);
      }
      IndexCarries(0, z);
    }

    /** The `x` loop of `buildMeshFor` for row `(y, z)`: blocks of other materials are skipped. */
    method BuildMeshRow(mat: int, y: int, z: int, vs: seq<Vertex>) returns (out: seq<Vertex>)
      requires world.Valid() && Registered() && 0 <= y < ChunkSize && 0 <= z < ChunkSize
      requires vs == VerticesUpTo(world.View(), origin, blocks, mat, 32 * y + 1024 * z)
      ensures out == VerticesUpTo(world.View(), origin, blocks, mat, 32 * (y + 1) + 1024 * z)
    {
      RegisteredIsFull();
      out := vs;
      for x := 0 to size
        invariant out == VerticesUpTo(world.View(), origin, blocks, mat, x + 32 * y + 1024 * z)
      {
        out := BuildMeshAt(mat, x, y, z, out);
      }
    }

    /** One pass of the `x` loop of `buildMeshFor`: the block at `(x, y, z)`. */
    method BuildMeshAt(mat: int, x: int, y: int, z: int, vs: seq<Vertex>) returns (out: seq<Vertex>)
      requires world.Valid() && Registered() && 0 <= x < ChunkSize && 0 <= y < ChunkSize && 0 <= z < ChunkSize
      requires vs == VerticesUpTo(world.View(), origin, blocks, mat, x + 32 * y + 1024 * z)
      ensures out == VerticesUpTo(world.View(), origin, blocks, mat, x + 32 * y + 1024 * z + 1)
    {
      RegisteredIsFull();
      var p := Vec3(x, y, z);
      var gp := Add(origin, p);
      var blk := Block(p);
      assert blk == blocks[x + 32 * y + 1024 * z];
      VerticesUpToStep(world.View(), origin, blocks, mat, x, y, z);
      out := vs;
      if blk != mat {
        return;
      }
      out := BlockFaces(gp, blk, out);
    }

    /**
     * The direction loop of `buildMeshFor` for one block of material `blk`
     * at world position `gp`, in `s, dir` order: a face is skipped towards a
     * solid neighbour and between two blocks of one translucent material,
     * and only a kept +Z face pushes vertices.
     */
    method BlockFaces(gp: Vec3, blk: int, vs: seq<Vertex>) returns (out: seq<Vertex>)
      requires world.Valid() && Registered()
      ensures out == vs + FacesUpTo(world.View(), gp, blk, 6)
    {
      out := vs;
      for k := 0 to 6
        invariant out == vs + FacesUpTo(world.View(), gp, blk, k)
      {
        var s, dir := DirSign(k), DirAxis(k);
        var n := Normal(s, dir);
        var nb := QueryBlock(Add(gp, n));
        ghost var snap, prev := world.View(), out;
        assert vs + FacesUpTo(snap, gp, blk, k + 1) == prev + DirFaces(snap, gp, blk, k);
        if IsSolid(nb) {
          assert DirFaces(snap, gp, blk, k) == [];
          continue;
        }
        if IsTranslucent(blk) && blk == nb {
          assert DirFaces(snap, gp, blk, k) == [];
          continue;
        }
        if n.z == 1 {
          // the three `push_back`s of the top face
          out := out + [Corner(Add(gp, Vec3(0, 1, 1)), s * (dir + 1)),
                        Corner(Add(gp, Vec3(0, 0, 1)), s * (dir + 1)),
                        Corner(Add(gp, Vec3(1, 1, 1)), s * (dir + 1))];
        }
      }
    }

    /**
     * `queryMeshes`: the cached meshes while the chunk is clean; otherwise
     * one mesh per non-air material of the chunk that has visible faces,
     * after which the chunk is clean. The new table is assembled in a local
     * map and then stored.
     */
    method QueryMeshes() returns (r: map<int, seq<Vertex>>)
      requires world.Valid() && Registered()
      modifies this`dirty, this`meshes, world`state
      ensures world.Valid() && world.View() == old(world.View())
      ensures world.state == old(world.state)[origin := State()]
      ensures !dirty && r == meshes
      ensures old(dirty) ==> r == MeshTable(world.View(), origin, blocks)
      ensures !old(dirty) ==> r == old(meshes)
    {
      RegisteredIsFull();
      if !dirty {
        return meshes;
      }
      var table := BuildMeshes();
      StoreMeshes(table);
      r := meshes;
    }

    /** The end of `queryMeshes` after a rebuild: the new table is cached and the chunk is clean. */
    method StoreMeshes(table: map<int, seq<Vertex>>)
      requires world.Valid() && Registered()
      modifies this`dirty, this`meshes, world`state
      ensures world.Valid() && world.View() == old(world.View())
      ensures world.state == old(world.state)[origin := State()]
      ensures !dirty && meshes == table && blocks == old(blocks)
    {
      RegisteredIsFull();
      ghost var s0 := world.state;
      meshes := table;
      dirty := false;
      BlocksOfNewCache(s0, origin, CacheState(false, table));
      assert s0[origin := State()] == s0[origin := s0[origin].(cache := CacheState(false, table))];
      world.state := s0[origin := State()];
      forall o | o in world.chunks ensures world.state[o] == world.chunks[o].State() {
        if o != origin {
          assert world.chunks[o].origin != origin;
        }
      }
      assert world.Tracked();
    }

    /** The block loops of `queryMeshes`: the mesh table of the chunk, each material built once. */
    method BuildMeshes() returns (table: map<int, seq<Vertex>>)
      requires world.Valid() && Registered()
      ensures table == MeshTable(world.View(), origin, blocks)
    {
      RegisteredIsFull();
      MeshTableUpToAll(world.View(), origin, blocks);
      table := map[];
      var built: set<int> := {};
      for z := 0 to size
        invariant table == MeshTableUpTo(world.View(), origin, blocks, 1024 * z)
        invariant built == MaterialsIn(blocks[..1024 * z])
      {
        table, built := BuildMeshesSlab(z, table, built);
      }
      IndexCarries(0, 0);
    }

    /** The `y` and `x` loops of `queryMeshes` for slice `z`. */
    method BuildMeshesSlab(z: int, table0: map<int, seq<Vertex>>, built0: set<int>) returns (table: map<int, seq<Vertex>>, built: set<int>)
      requires world.Valid() && Registered() && 0 <= z < ChunkSize
      requires table0 == MeshTableUpTo(world.View(), origin, blocks, 1024 * z)
      requires built0 == MaterialsIn(blocks[..1024 * z])
      ensures table == MeshTableUpTo(world.View(), origin, blocks, 1024 * (z + 1))
      ensures built == MaterialsIn(blocks[..1024 * (z + 1)])
    {
      RegisteredIsFull();
      table, built := table0, built0;
      for y := 0 to size
        invariant table == MeshTableUpTo(world.View(), origin, blocks, 32 * y + 1024 * z)
        invariant built == MaterialsIn(blocks[..32 * y + 1024 * z])
      {
        table, built := BuildMeshesRow(y, z, table, built);
      }
      IndexCarries(0, z);
    }

    /**
     * The `x` loop of `queryMeshes` for row `(y, z)`: the first block of
     * each non-air material builds that material's mesh and stores it when
     * it is not null.
     */
    method BuildMeshesRow(y: int, z: int, table0: map<int, seq<Vertex>>, built0: set<int>) returns (table: map<int, seq<Vertex>>, built: set<int>)
      requires world.Valid() && Registered() && 0 <= y < ChunkSize && 0 <= z < ChunkSize
      requires table0 == MeshTableUpTo(world.View(), origin, blocks, 32 * y + 1024 * z)
      requires built0 == MaterialsIn(blocks[..32 * y + 1024 * z])
      ensures table == MeshTableUpTo(world.View(), origin, blocks, 32 * (y + 1) + 1024 * z)
      ensures built == MaterialsIn(blocks[..32 * (y + 1) + 1024 * z])
    {
      RegisteredIsFull();
      table, built := table0, built0;
      for x := 0 to size
        invariant table == MeshTableUpTo(world.View(), origin, blocks, x + 32 * y + 1024 * z)
        invariant built == MaterialsIn(blocks[..x + 32 * y + 1024 * z])
      {
        table, built := BuildMeshesAt(x, y, z, table, built);
      }
    }

    /** One pass of the `x` loop of `queryMeshes`: the block at `(x, y, z)`. */
    method BuildMeshesAt(x: int, y: int, z: int, table0: map<int, seq<Vertex>>, built0: set<int>) returns (table: map<int, seq<Vertex>>, built: set<int>)
      requires world.Valid() && Registered() && 0 <= x < ChunkSize && 0 <= y < ChunkSize && 0 <= z < ChunkSize
      requires table0 == MeshTableUpTo(world.View(), origin, blocks, x + 32 * y + 1024 * z)
      requires built0 == MaterialsIn(blocks[..x + 32 * y + 1024 * z])
      ensures table == MeshTableUpTo(world.View(), origin, blocks, x + 32 * y + 1024 * z + 1)
      ensures built == MaterialsIn(blocks[..x + 32 * y + 1024 * z + 1])
    {
      RegisteredIsFull();
      ghost var n := x + 32 * y + 1024 * z;
      ghost var snap := world.View();
      var b := Block(Vec3(x, y, z));
      assert b == blocks[n];
      MeshTableUpToStep(snap, origin, blocks, n);
      MaterialsInStep(blocks, n);
      table, built := table0, built0;
      if !IsAir(b) && b !in built {
        built := built + {b};
        var vao := BuildMeshFor(b);
        if vao.Some? {
          table := table[b := vao.value];
        }
      }
      assert table == MeshTableUpTo(snap, origin, blocks, n + 1);
    }

    /**
     * `aoAt(pos)`: the brightness of the corner of local position `pos`
     * from the solidity of its two side samples and its diagonal sample,
     * read through `queryBlock`, with the unoccluded corner fully bright.
     */
    function AoAt(pos: Vec3): (r: real)
      reads this, world, world.Repr
      requires world.Valid() && Registered()
      ensures 0.0 <= r <= 1.0
      ensures var gp := Add(origin, pos);
              r == 1.0 <==> !IsSolid(BlockIn(world.View(), Add(gp, AoSide1))) && !IsSolid(BlockIn(world.View(), Add(gp, AoDiagonal)))
                            && !IsSolid(BlockIn(world.View(), Add(gp, AoSide2)))
      ensures var gp := Add(origin, pos);
              r == 0.0 <==> IsSolid(BlockIn(world.View(), Add(gp, AoSide1))) && IsSolid(BlockIn(world.View(), Add(gp, AoSide2)))
    {
      var gp := Add(origin, pos);
      Ao(QueryBlock(Add(gp, AoSide1)), QueryBlock(Add(gp, AoDiagonal)), QueryBlock(Add(gp, AoSide2)))
    }

    /** `Chunk::markDirty`: the next `queryMeshes` rebuilds; the blocks stay. */
    method MarkDirty()
      modifies this`dirty, this`meshes
      ensures State() == Mark(old(State()))
    {
      dirty := true;
      meshes := map[];
    }
  }

  /** `World`: a sparse map from chunk origin to chunk, and the two material registries. */
  class World {
    /** `chunkSize`: a `const` member, 32 for the world's lifetime. */
    const chunkSize: int
    /** The block material the terrain generator picks for each world position. */
    const gen: Terrain
    /** `chunks` */
    var chunks: map<Vec3, Chunk>
    var materialsOpaque: seq<Material>
    var materialsTranslucent: seq<Material>
    /** Every chunk as a value, by chunk origin. */
    ghost var state: ChunkMap
    /** The chunks this world has created: the ones it holds, and possibly some it has dropped. */
    ghost var Repr: set<Chunk>

    /**
     * The chunk map's shape: every key is the origin of its chunk and
     * every chunk is a placed chunk of this world.
     */
    ghost predicate Layout()
      reads this`chunks
    {
      chunkSize == ChunkSize
      && (forall o | o in chunks :: chunks[o].origin == o && chunks[o].Placed() && chunks[o].world == this)
    }

    /** `state` holds the current value of every chunk, each a full cube of blocks. */
    ghost predicate Tracked()
      reads this`chunks, this`state, this`Repr, Repr
    {
      state.Keys == chunks.Keys
      && forall o | o in chunks :: chunks[o] in Repr && state[o] == chunks[o].State() && |state[o].blocks| == Volume
    }

    /** A consistent world: chunks keyed by their origins and tracked by `state`. */
    ghost predicate Valid()
      reads this, Repr
    {
      Layout() && Tracked()
    }

    /** The blocks of the world as a value. */
    ghost function View(): Snapshot
      reads this`state
    {
      BlocksOf(state)
    }

    /** The block view of a valid world is well formed. */
    lemma ViewWellFormed()
      requires Valid()
      ensures WellFormed(View())
    {
    }

    /** An empty world: no chunks, no materials (`init` adds them). */
    constructor (gen: Terrain)
      ensures Valid() && Indexed(materialsOpaque, materialsTranslucent) && this.gen == gen
      ensures chunks == map[] && state == map[] && materialsOpaque == [] && materialsTranslucent == []
    {
      chunkSize := 32;
      this.gen := gen;
      chunks := map[];
      materialsOpaque := [];
      materialsTranslucent := [];
      state := map[];
      Repr := {};
    }

    /** `queryChunk(p)`: the chunk holding `p`, or null when it does not exist. */
    function QueryChunk(p: Vec3): (r: Chunk?)
      reads this`chunks
      requires Layout()
      ensures r == null <==> forall o | o in chunks :: !InChunkAt(p, o)
      ensures r == null <==> ChunkPos(p) !in chunks
      ensures r != null ==> r == chunks[ChunkPos(p)] && r.origin == ChunkPos(p)
    {
      var cp := ChunkPos(p);
      if cp in chunks then
        chunks[cp]
      else
        assert forall o | o in chunks && InChunkAt(p, o) :: o == cp by {
          forall o | o in chunks && InChunkAt(p, o) ensures o == cp {
            ChunkPosUnique(p, o);
          }
        }
        null
    }

    /**
     * `queryBlock(p)`: the block at `p` of the chunk holding it, or air
     * when that chunk does not exist; it allocates nothing.
     */
    function QueryBlock(p: Vec3): (r: int)
      reads this, Repr
      requires Valid()
      ensures r == BlockIn(View(), p)
      ensures ChunkPos(p) !in chunks ==> r == Air
    {
      var cp := ChunkPos(p);
      if cp !in chunks then Air else chunks[cp].Block(Sub(p, cp))
    }

    // ---- materials ----------------------------------------------------------

    /** `addOpaqueMat(name)`: registers an opaque material with the next positive index. */
    method AddOpaqueMat(name: string) returns (m: Material)
      requires Indexed(materialsOpaque, materialsTranslucent)
      modifies this`materialsOpaque
      ensures Indexed(materialsOpaque, materialsTranslucent)
      ensures m == Material(name, |old(materialsOpaque)| + 1, "opaque")
      ensures materialsOpaque == old(materialsOpaque) + [m]
      ensures GetMaterialFromIndex(m.index) == Some(m)
    {
      m := Material(name, |materialsOpaque| + 1, "opaque");
      materialsOpaque := materialsOpaque + [m];
    }

    /** `addTranslucentMat(name)`: registers a translucent material with the next negative index. */
    method AddTranslucentMat(name: string) returns (m: Material)
      requires Indexed(materialsOpaque, materialsTranslucent)
      modifies this`materialsTranslucent
      ensures Indexed(materialsOpaque, materialsTranslucent)
      ensures m == Material(name, -(|old(materialsTranslucent)| + 1), "translucent")
      ensures materialsTranslucent == old(materialsTranslucent) + [m]
      ensures GetMaterialFromIndex(m.index) == Some(m)
    {
      m := Material(name, -(|materialsTranslucent| + 1), "translucent");
      materialsTranslucent := materialsTranslucent + [m];
    }

    /**
     * `setUpMaterials`: four opaque materials and water, whose shader is
     * then changed to "water" through the returned reference.
     */
    method SetUpMaterials()
      requires Indexed(materialsOpaque, materialsTranslucent)
      modifies this`materialsOpaque, this`materialsTranslucent
      ensures Indexed(materialsOpaque, materialsTranslucent)
      ensures var n := |old(materialsOpaque)|;
              materialsOpaque == old(materialsOpaque) + [Material("grass", n + 1, "opaque"), Material("rock", n + 2, "opaque"),
                                                          Material("sand", n + 3, "opaque"), Material("snow", n + 4, "opaque")]
      ensures materialsTranslucent == old(materialsTranslucent) + [Material("water", -(|old(materialsTranslucent)| + 1), "water")]
    {
      var _ := AddOpaqueMat("grass");
      var _ := AddOpaqueMat("rock");
      var _ := AddOpaqueMat("sand");
      var _ := AddOpaqueMat("snow");
      var water := AddTranslucentMat("water");
      materialsTranslucent := materialsTranslucent[|materialsTranslucent| - 1 := water.(shader := "water")];
    }

    /** `init`: sets up the materials (the noise configuration is not part of this model). */
    method Init()
      requires Indexed(materialsOpaque, materialsTranslucent)
      modifies this`materialsOpaque, this`materialsTranslucent
      ensures Indexed(materialsOpaque, materialsTranslucent)
      ensures materialsOpaque == old(materialsOpaque) + [Material("grass", |old(materialsOpaque)| + 1, "opaque"),
                                                          Material("rock", |old(materialsOpaque)| + 2, "opaque"),
                                                          Material("sand", |old(materialsOpaque)| + 3, "opaque"),
                                                          Material("snow", |old(materialsOpaque)| + 4, "opaque")]
      ensures materialsTranslucent == old(materialsTranslucent) + [Material("water", -(|old(materialsTranslucent)| + 1), "water")]
    {
      SetUpMaterials();
    }

    /**
     * `getMaterialFromIndex(i)`: the opaque material `i` for `1 <= i <= N`,
     * the translucent material `-i` for `1 <= -i <= M`, and nothing for air
     * or an unknown index.
     */
    function GetMaterialFromIndex(i: int): (r: Option<Material>)
      reads this`materialsOpaque, this`materialsTranslucent
      ensures r.Some? <==> 1 <= i <= |materialsOpaque| || 1 <= -i <= |materialsTranslucent|
      ensures i == Air ==> r == None
      ensures r.Some? && Indexed(materialsOpaque, materialsTranslucent) ==> r.value.index == i
      ensures r.Some? && i > 0 ==> r.value in materialsOpaque
      ensures r.Some? && i < 0 ==> r.value in materialsTranslucent
    {
      if 0 < i <= |materialsOpaque| then Some(materialsOpaque[i - 1])
      else if 0 < -i <= |materialsTranslucent| then Some(materialsTranslucent[-i - 1])
      else None
    }

    /** Every registered material is found again under its own index. */
    lemma MaterialIndexRoundTrip(m: Material)
      requires Indexed(materialsOpaque, materialsTranslucent) && (m in materialsOpaque || m in materialsTranslucent)
      ensures GetMaterialFromIndex(m.index) == Some(m)
    {
      if m in materialsOpaque {
        var i :| 0 <= i < |materialsOpaque| && materialsOpaque[i] == m;
      } else {
        var i :| 0 <= i < |materialsTranslucent| && materialsTranslucent[i] == m;
      }
    }

    /**
     * `getMaterialFromName(name)`: the first opaque material of that name,
     * else the first translucent one, else nothing (the source logs an
     * error then).
     */
    function GetMaterialFromName(name: string): (r: Option<Material>)
      reads this`materialsOpaque, this`materialsTranslucent
      ensures r.Some? ==> r.value.name == name && (r.value in materialsOpaque || r.value in materialsTranslucent)
      ensures (exists j | 0 <= j < |materialsOpaque| :: materialsOpaque[j].name == name) ==>
                exists i | 0 <= i < |materialsOpaque| ::
                  r == Some(materialsOpaque[i]) && materialsOpaque[i].name == name
                  && forall j | 0 <= j < i :: materialsOpaque[j].name != name
      ensures (forall j | 0 <= j < |materialsOpaque| :: materialsOpaque[j].name != name)
              && (exists j | 0 <= j < |materialsTranslucent| :: materialsTranslucent[j].name == name) ==>
                exists i | 0 <= i < |materialsTranslucent| ::
                  r == Some(materialsTranslucent[i]) && materialsTranslucent[i].name == name
                  && forall j | 0 <= j < i :: materialsTranslucent[j].name != name
      ensures r.None? <==> (forall j | 0 <= j < |materialsOpaque| :: materialsOpaque[j].name != name)
                           && (forall j | 0 <= j < |materialsTranslucent| :: materialsTranslucent[j].name != name)
    {
      match FirstNamed(materialsOpaque, name)
      case Some(i) => Some(materialsOpaque[i])
      case None =>
        match FirstNamed(materialsTranslucent, name)
        case Some(i) => Some(materialsTranslucent[i])
        case None => None
    }

    // ---- chunks -------------------------------------------------------------

    /** `clearChunks`: removes all chunks, after which every block reads as air. */
    method ClearChunks()
      requires Valid()
      modifies this`chunks, this`state
      ensures Valid() && chunks == map[] && state == map[]
      ensures forall q :: QueryBlock(q) == Air
    {
      chunks := map[];
      state := map[];
      forall q {
        EmptyIsAir(q);
      }
    }

    /**
     * `ensureChunkAt(p)`: when the chunk holding `p` is missing, creates it,
     * generates its blocks, registers it and marks it and its existing
     * neighbours (the 3x3x3 chunks around it) dirty; otherwise changes
     * nothing.
     */
    method EnsureChunkAt(p: Vec3)
      requires Valid()
      modifies this`chunks, this`state, this`Repr, Repr
      ensures Valid()
      ensures state == EnsureAt(gen, old(state), p)
      ensures Extends() && ChunkPos(p) in chunks
    {
      var cp := ChunkPos(p);
      if cp in chunks {
        return;
      }
      var c := AddChunk(cp);
      ghost var s1 := state;
      MarkNeighbours(c);
      MarkPartialDone(s1, cp);
    }

    /** The creating half of `ensureChunkAt`: a new, generated chunk is registered at `cp`. */
    method AddChunk(cp: Vec3) returns (c: Chunk)
      requires Valid() && Aligned(cp) && cp !in chunks
      modifies this`chunks, this`state, this`Repr
      ensures Valid() && Extends()
      ensures c.origin == cp && cp in chunks && chunks[cp] == c && chunks == old(chunks)[cp := c]
      ensures state == old(state)[cp := NewChunk(gen, cp)]
    {
      c := CreateChunk(cp);
      RegisterChunk(c);
    }

    /** `Chunk::create(cp, chunkSize, this)` followed by `generate(*c)`: a fresh, generated, dirty chunk. */
    method CreateChunk(cp: Vec3) returns (c: Chunk)
      requires chunkSize == ChunkSize && Aligned(cp)
      ensures fresh(c) && c.origin == cp && c.Placed() && c.world == this
      ensures c.State() == NewChunk(gen, cp)
    {
      c := new Chunk(cp, chunkSize, this);
      Generate(c);
    }

    /** `chunks[cp] = c` for a chunk not yet in the map. */
    method RegisterChunk(c: Chunk)
      requires Valid() && c.Placed() && c.world == this && c.origin !in chunks && |c.blocks| == Volume
      modifies this`chunks, this`state, this`Repr
      ensures Valid()
      ensures chunks == old(chunks)[c.origin := c]
      ensures state == old(state)[c.origin := c.State()]
      ensures Repr == old(Repr) + {c}
    {
      chunks := chunks[c.origin := c];
      state := state[c.origin := c.State()];
      Repr := Repr + {c};
    }

    /** The neighbour loop of `ensureChunkAt`, in `dz, dy, dx` order, after the new chunk `c` is registered. */
    method MarkNeighbours(c: Chunk)
      requires Valid() && c.origin in chunks && chunks[c.origin] == c
      modifies this`state, Repr
      ensures Valid() && chunks == old(chunks)
      ensures state == MarkPartial(old(state), c.origin, 2, -1, -1)
    {
      MarkPartialStart(state, c.origin);
      for dz := -1 to 2
        invariant Valid() && chunks == old(chunks)
        invariant state == MarkPartial(old(state), c.origin, dz, -1, -1)
      {
        MarkNeighbourSlab(c, old(state), dz);
        MarkPartialNextSlab(old(state), c.origin, dz);
      }
    }

    /** The middle loop of `ensureChunkAt`: the neighbours at offsets `(-1..1, -1..1, dz)` of the new chunk `c`, in `dy` order. */
    method MarkNeighbourSlab(c: Chunk, ghost s0: ChunkMap, dz: int)
      requires Valid() && c.origin in chunks && chunks[c.origin] == c
      requires -1 <= dz <= 1 && AllAligned(s0) && s0.Keys == chunks.Keys
      requires state == MarkPartial(s0, c.origin, dz, -1, -1)
      modifies this`state, Repr
      ensures Valid() && chunks == old(chunks)
      ensures state == MarkPartial(s0, c.origin, dz, 2, -1)
    {
      for dy := -1 to 2
        invariant Valid() && chunks == old(chunks)
        invariant state == MarkPartial(s0, c.origin, dz, dy, -1)
      {
        MarkNeighbourRow(c, s0, dz, dy);
        MarkPartialNextRow(s0, c.origin, dz, dy);
      }
    }

    /** The innermost loop of `ensureChunkAt`: the neighbours at offsets `(-1..1, dy, dz)` of the new chunk `c`, in `dx` order. */
    method MarkNeighbourRow(c: Chunk, ghost s0: ChunkMap, dz: int, dy: int)
      requires Valid() && c.origin in chunks && chunks[c.origin] == c
      requires -1 <= dz <= 1 && -1 <= dy <= 1 && AllAligned(s0) && s0.Keys == chunks.Keys
      requires state == MarkPartial(s0, c.origin, dz, dy, -1)
      modifies this`state, Repr
      ensures Valid() && chunks == old(chunks)
      ensures state == MarkPartial(s0, c.origin, dz, dy, 2)
    {
      for dx := -1 to 2
        invariant Valid() && chunks == old(chunks)
        invariant state == MarkPartial(s0, c.origin, dz, dy, dx)
      {
        var q := Add(c.origin, Scale(Vec3(dx, dy, dz), chunkSize));
        MarkPartialStep(s0, c.origin, dz, dy, dx);
        AlignedShift(c.origin, Vec3(dx, dy, dz));
        ChunkPosOfAligned(q);
        MarkChunkOf(q);
      }
    }

    /** `if (auto nc = queryChunk(p)) nc->markDirty()`: marks the chunk holding `p`, if there is one. */
    method MarkChunkOf(p: Vec3)
      requires Valid()
      modifies this`state, Repr
      ensures Valid() && chunks == old(chunks)
      ensures state == if ChunkPos(p) in chunks then old(state)[ChunkPos(p) := Mark(old(state)[ChunkPos(p)])] else old(state)
    {
      var nc := QueryChunk(p);
      if nc != null {
        MarkRegistered(nc);
      }
    }

    /** `c->markDirty()` for a chunk of this world, and the matching change of `state`. */
    method MarkRegistered(c: Chunk)
      requires Valid() && c.origin in chunks && chunks[c.origin] == c
      modifies this`state, c
      ensures Valid() && chunks == old(chunks)
      ensures state == old(state)[c.origin := Mark(old(state)[c.origin])]
    {
      c.MarkDirty();
      state := state[c.origin := Mark(state[c.origin])];
      forall o | o in chunks ensures state[o] == chunks[o].State() {
        if o != c.origin {
          assert chunks[o].origin != c.origin;
        }
      }
    }

    /** The chunks of `old(chunks)` are kept, and every chunk created since `old` is new. */
    twostate predicate Extends()
      reads this
    {
      old(chunks).Keys <= chunks.Keys
      && (forall o | o in old(chunks) :: chunks[o] == old(chunks[o]))
      && old(Repr) <= Repr && forall c | c in Repr && c !in old(Repr) :: fresh(c)
    }

    /**
     * `markDirty(p, rad)`: for `rad, rad - chunkSize, ...` down to the last
     * non-negative radius, ensures and marks the chunks at the eight corners
     * `p + (+-rad, +-rad, +-rad)`.
     */
    method MarkDirty(p: Vec3, rad: int)
      requires Valid()
      modifies this`chunks, this`state, this`Repr, Repr
      ensures Valid() && Extends()
      ensures state == MarkDirtyAt(gen, old(state), p, rad)
    {
      ghost var rad0, k := rad, 0;
      var r := rad;
      while r >= 0
        invariant Valid() && Extends()
        invariant r == RoundRadius(rad0, k) && (k > 0 ==> RoundRadius(rad0, k - 1) >= 0)
        invariant state == RoundsDone(gen, old(state), p, rad0, k)
        decreases r
      {
        RoundsDoneNext(gen, old(state), p, rad0, k);
        MarkDirtyRound(p, r);
        r, k := r - ChunkSize, k + 1;
      }
      RoundCountUnique(rad0, k);
    }

    /** One round of `markDirty`: the eight corners at radius `r`, in `dx, dy, dz` order. */
    method MarkDirtyRound(p: Vec3, r: int)
      requires Valid()
      modifies this`chunks, this`state, this`Repr, Repr
      ensures Valid() && Extends()
      ensures state == CornersDone(gen, old(state), p, r, 8)
    {
      ghost var s0 := state;
      for i := 0 to 8
        invariant Valid() && Extends()
        invariant state == CornersDone(gen, s0, p, r, i)
      {
        MarkCornerStep(p, r, i, s0);
      }
    }

    /** Corner `i` of a round of `markDirty`, after the first `i` corners. */
    method MarkCornerStep(p: Vec3, r: int, i: int, ghost s0: ChunkMap)
      requires Valid() && 0 <= i < 8 && state == CornersDone(gen, s0, p, r, i)
      modifies this`chunks, this`state, this`Repr, Repr
      ensures Valid() && Extends()
      ensures state == CornersDone(gen, s0, p, r, i + 1)
    {
      var np := Add(p, Scale(CornerOrder[i], r));
      BoxCornerScaled(p, CornerOrder[i], r);
      MarkCorner(np);
    }

    /** The body of the corner loop of `markDirty`: `ensureChunkAt(np)`, then the chunk of `np` is marked. */
    method MarkCorner(np: Vec3)
      requires Valid()
      modifies this`chunks, this`state, this`Repr, Repr
      ensures Valid() && Extends()
      ensures state == MarkCornerAt(gen, old(state), np)
    {
      EnsureChunkAt(np);
      var c := QueryChunk(np);
      assert c != null;
      MarkRegistered(c);
    }

    /**
     * `queryBlockMutable(p).mat = m`: ensures the chunk of `p` and writes
     * its block at `p`.
     */
    method SetBlock(p: Vec3, m: int)
      requires Valid()
      modifies this`chunks, this`state, this`Repr, Repr
      ensures Valid() && Extends()
      ensures state == SetAt(EnsureAt(gen, old(state), p), p, m)
    {
      EnsureChunkAt(p);
      var c := QueryChunk(p);
      assert c != null;
      WriteRegistered(c, p, m);
    }

    /** `c->block(p - c->chunkPos).mat = m` for the chunk of this world holding `p`, and the matching change of `state`. */
    method WriteRegistered(c: Chunk, p: Vec3, m: int)
      requires Valid() && c.origin in chunks && chunks[c.origin] == c && ChunkPos(p) == c.origin
      modifies this`state, c
      ensures Valid() && chunks == old(chunks)
      ensures state == SetAt(old(state), p, m)
    {
      var l := Sub(p, c.origin);
      IndexInRange(l);
      c.blocks := c.blocks[Index(l) := m];
      state := state[c.origin := c.State()];
      forall o | o in chunks ensures state[o] == chunks[o].State() {
        if o != c.origin {
          assert chunks[o].origin != c.origin;
        }
      }
    }

    /**
     * `generate(c)`: fills every block of the chunk, in `z, y, x` order,
     * with the generator's material for its world position.
     */
    method Generate(c: Chunk)
      requires chunkSize == ChunkSize && |c.blocks| == Volume
      modifies c`blocks
      ensures c.blocks == Generated(gen, c.origin)
    {
      var z := 0;
      while z < chunkSize
        invariant 0 <= z <= ChunkSize
        invariant |c.blocks| == Volume
        invariant forall j | 0 <= j < Index(Vec3(0, 0, z)) :: c.blocks[j] == Generated(gen, c.origin)[j]
      {
        var y := 0;
        while y < chunkSize
          invariant 0 <= y <= ChunkSize
          invariant |c.blocks| == Volume
          invariant forall j | 0 <= j < Index(Vec3(0, y, z)) :: c.blocks[j] == Generated(gen, c.origin)[j]
        {
          GenerateRow(c, y, z);
          y := y + 1;
        }
        z := z + 1;
      }
    }

    /** The innermost loop of `generate`: row `(y, z)` of the chunk, in `x` order. */
    method GenerateRow(c: Chunk, y: int, z: int)
      requires chunkSize == ChunkSize && |c.blocks| == Volume && 0 <= y < ChunkSize && 0 <= z < ChunkSize
      requires forall j | 0 <= j < Index(Vec3(0, y, z)) :: c.blocks[j] == Generated(gen, c.origin)[j]
      modifies c`blocks
      ensures |c.blocks| == Volume
      ensures forall j | 0 <= j < Index(Vec3(0, y, z)) + ChunkSize :: c.blocks[j] == Generated(gen, c.origin)[j]
      ensures forall j | Index(Vec3(0, y, z)) + ChunkSize <= j < Volume :: c.blocks[j] == old(c.blocks[j])
    {
      ghost var g := Generated(gen, c.origin);
      var x := 0;
      while x < chunkSize
        invariant 0 <= x <= ChunkSize
        invariant |c.blocks| == Volume
        invariant forall j | 0 <= j < Index(Vec3(x, y, z)) :: c.blocks[j] == g[j]
        invariant forall j | Index(Vec3(0, y, z)) + ChunkSize <= j < Volume :: c.blocks[j] == old(c.blocks[j])
      {
        var rp := Vec3(x, y, z);
        DecodeIndex(rp);
        c.blocks := c.blocks[Index(rp) := gen[Add(c.origin, rp)]];
        x := x + 1;
      }
    }

    // ---- ray casting --------------------------------------------------------

    /**
     * `rayCast(pos, dir, maxRange)`: walks from the voxel holding `pos`
     * through the voxel faces the ray crosses, one axis per iteration, until
     * it reaches a non-air block or the range is used up. The chunk of the
     * current voxel is looked up again only when the walk leaves the cached
     * one; the block read through it is the world's block there.
     */
    method RayCast(pos: RVec, dir: RVec, maxRange: real) returns (hit: RayHit)
      requires Valid() && NonZero(dir)
      ensures hit == Cast(View(), pos, dir, maxRange)
    {
      ghost var snap, start := View(), StartProbe(pos);
      WalkingStart(pos, dir);
      var idir := SignVec(dir);
      var ipos := FloorVec(pos);
      var chunk := QueryChunk(ipos);
      var block := QueryBlock(ipos);
      var normal := Vec3(0, 0, 0);
      var p, range := pos, maxRange;
      ghost var travelled, n, k := 0.0, 0, Vec3(0, 0, 0);
      while IsAir(block) && range > 0.0
        invariant Probe(ipos, p, travelled) == Walk(start, dir, n)
        invariant range == maxRange - travelled
        invariant Walking(Probe(ipos, p, travelled), dir, StartGaps(pos, dir), k) && k.x + k.y + k.z == n
        invariant block == BlockIn(snap, ipos)
        invariant chunk != null ==> chunk.origin in chunks && chunks[chunk.origin] == chunk
        invariant Mul(normal, Scale(idir, -1)) == NormalAfter(start, dir, n)
        invariant forall i | 0 <= i < n :: !Stops(snap, Walk(start, dir, i), maxRange)
        decreases Budget(dir, maxRange) - n
      {
        var t;
        ipos, p, normal, t, chunk, block, k := RayIteration(pos, dir, maxRange, ipos, p, chunk, travelled, n, k);
        range := range - t;
        travelled := travelled + t;
        n := n + 1;
      }
      CastStepsUnique(snap, pos, dir, maxRange, n);
      hit := RayHit(!IsAir(block), p, Mul(normal, Scale(idir, -1)), block, ipos);
    }

    /**
     * One iteration of the loop of `rayCast` from the probe of iteration
     * `n`, at which the loop does not stop: the result is the probe of
     * iteration `n + 1`, with its normal and the world's block there.
     */
    method RayIteration(ghost pos: RVec, dir: RVec, ghost maxRange: real, ipos: Vec3, p: RVec, chunk: Chunk?,
                        ghost travelled: real, ghost n: nat, ghost k: Vec3)
      returns (ipos': Vec3, p': RVec, normal: Vec3, t: real, chunk': Chunk?, block: int, ghost k': Vec3)
      requires Valid() && NonZero(dir)
      requires chunk != null ==> chunk.origin in chunks && chunks[chunk.origin] == chunk
      requires Probe(ipos, p, travelled) == Walk(StartProbe(pos), dir, n)
      requires Walking(Probe(ipos, p, travelled), dir, StartGaps(pos, dir), k) && k.x + k.y + k.z == n
      requires forall i | 0 <= i < n :: !Stops(View(), Walk(StartProbe(pos), dir, i), maxRange)
      requires !Stops(View(), Probe(ipos, p, travelled), maxRange)
      ensures Probe(ipos', p', travelled + t) == Walk(StartProbe(pos), dir, n + 1)
      ensures Walking(Probe(ipos', p', travelled + t), dir, StartGaps(pos, dir), k') && k'.x + k'.y + k'.z == n + 1
      ensures n <= Budget(dir, maxRange)
      ensures forall i | 0 <= i < n + 1 :: !Stops(View(), Walk(StartProbe(pos), dir, i), maxRange)
      ensures Mul(normal, Scale(SignVec(dir), -1)) == NormalAfter(StartProbe(pos), dir, n + 1)
      ensures chunk' != null ==> chunk'.origin in chunks && chunks[chunk'.origin] == chunk'
      ensures block == BlockIn(View(), ipos')
    {
      ghost var pr := Probe(ipos, p, travelled);
      WalkOneMore(View(), pos, dir, maxRange, n, k);
      k' := Add(k, Unit(AxisAt(pr, dir)));
      ipos', p', normal, t := RayStep(ipos, p, dir, travelled);
      chunk', block := BlockVia(chunk, ipos');
    }

    /**
     * The stepping part of one iteration of `rayCast`: the voxel moves on
     * the axis of the nearest boundary (ties to X, then Y), `hitNormal`
     * becomes that axis' unit vector, and the position moves by `t * dir`.
     */
    method RayStep(ipos: Vec3, p: RVec, dir: RVec, ghost travelled: real) returns (ipos': Vec3, p': RVec, normal: Vec3, t: real)
      requires NonZero(dir)
      ensures Probe(ipos', p', travelled + t) == Advance(Probe(ipos, p, travelled), dir)
      ensures normal == Unit(AxisAt(Probe(ipos, p, travelled), dir))
    {
      var idir := SignVec(dir);
      var nextT := NextT(ipos, p, dir);
      if nextT.x <= nextT.y && nextT.x <= nextT.z {
        normal := Vec3(1, 0, 0);
        t := nextT.x;
        ipos' := Vec3(ipos.x + idir.x, ipos.y, ipos.z);
      } else if nextT.y <= nextT.z {
        normal := Vec3(0, 1, 0);
        t := nextT.y;
        ipos' := Vec3(ipos.x, ipos.y + idir.y, ipos.z);
      } else {
        normal := Vec3(0, 0, 1);
        t := nextT.z;
        ipos' := Vec3(ipos.x, ipos.y, ipos.z + idir.z);
      }
      p' := RAdd(p, RScale(dir, t));
    }

    /**
     * The block part of one iteration of `rayCast`: the chunk is looked up
     * again when there is none cached or the voxel left it, and the block
     * is read from it, or is air when there is no chunk.
     */
    method BlockVia(chunk: Chunk?, ipos: Vec3) returns (chunk': Chunk?, block: int)
      requires Valid()
      requires chunk != null ==> chunk.origin in chunks && chunks[chunk.origin] == chunk
      ensures chunk' != null ==> chunk'.origin in chunks && chunks[chunk'.origin] == chunk'
      ensures block == BlockIn(View(), ipos)
    {
      chunk' := chunk;
      if chunk' == null || !chunk'.Contains(ipos) {
        chunk' := QueryChunk(ipos);
      }
      if chunk' == null {
        block := Air;
      } else {
        ChunkPosUnique(ipos, chunk'.origin);
        block := chunk'.Block(Sub(ipos, chunk'.origin));
        assert block == QueryBlock(ipos);
      }
    }
  }
}
