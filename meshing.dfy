/**
 * What `Chunk::buildMeshFor`, `Chunk::queryMeshes` and `Chunk::aoAt`
 * (assignment07/Chunk.cc) compute, as functions of the world's blocks.
 * The imperative chunk in module Voxel is proved to produce exactly these
 * values.
 */
module Meshing {
  import opened Coords
  import opened Blocks

  /** `TerrainVertex`: one `glm::ivec4`, a corner position and a packed face code. */
  datatype Vertex = Vertex(x: int, y: int, z: int, w: int)

  function Corner(p: Vec3, w: int): Vertex { Vertex(p.x, p.y, p.z, w) }

  /** The face normal `s * ivec3(dir == 0, dir == 1, dir == 2)`. */
  function Normal(s: int, dir: int): Vec3
  {
    Scale(Vec3(if dir == 0 then 1 else 0, if dir == 1 then 1 else 0, if dir == 2 then 1 else 0), s)
  }

  /** The sign of the `k`-th direction visited by `for s in {-1, 1}`, `for dir in {0, 1, 2}`. */
  function DirSign(k: int): int { if k < 3 then -1 else 1 }

  /** The axis of the `k`-th direction visited. */
  function DirAxis(k: int): int { if k < 3 then k else k - 3 }

  /**
   * A face of a block of material `blk` towards a neighbour of material
   * `nb` is emitted unless the neighbour is solid, or the block is
   * translucent and the neighbour is of the same material.
   */
  predicate FaceKept(blk: int, nb: int)
  {
    !IsSolid(nb) && !(IsTranslucent(blk) && blk == nb)
  }

  /** No face between a block and a solid neighbour. */
  lemma NoFaceAgainstSolid(blk: int, nb: int)
    requires IsSolid(nb)
    ensures !FaceKept(blk, nb)
  {
  }

  /** No face between two translucent blocks of the same material. */
  lemma NoFaceInsideTranslucent(blk: int)
    requires IsTranslucent(blk)
    ensures !FaceKept(blk, blk)
  {
  }

  /** A face towards air is always emitted, also for a translucent block. */
  lemma FaceTowardsAir(blk: int)
    ensures FaceKept(blk, Air)
  {
  }

  /** The vertices pushed for one kept face: only a +Z face emits any (three corners). */
  function FaceVertices(gp: Vec3, n: Vec3, s: int, dir: int): seq<Vertex>
  {
    if n.z == 1 then
      [Corner(Add(gp, Vec3(0, 1, 1)), s * (dir + 1)),
       Corner(Add(gp, Vec3(0, 0, 1)), s * (dir + 1)),
       Corner(Add(gp, Vec3(1, 1, 1)), s * (dir + 1))]
    else []
  }

  /** The three vertices of the top face of the block at global position `gp`, with face code 3. */
  function TopFace(gp: Vec3): seq<Vertex>
  {
    [Corner(Add(gp, Vec3(0, 1, 1)), 3), Corner(Add(gp, Vec3(0, 0, 1)), 3), Corner(Add(gp, Vec3(1, 1, 1)), 3)]
  }

  /** The vertices for direction `k` of a block of material `blk` at global position `gp`. */
  function DirFaces(snap: Snapshot, gp: Vec3, blk: int, k: int): seq<Vertex>
  {
    var n := Normal(DirSign(k), DirAxis(k));
    if FaceKept(blk, BlockIn(snap, Add(gp, n))) then FaceVertices(gp, n, DirSign(k), DirAxis(k)) else []
  }

  /** The vertices of the first `k` directions of one block, in loop order. */
  function FacesUpTo(snap: Snapshot, gp: Vec3, blk: int, k: nat): seq<Vertex>
    requires k <= 6
  {
    if k == 0 then [] else FacesUpTo(snap, gp, blk, k - 1) + DirFaces(snap, gp, blk, k - 1)
  }

  /** The local position of flat index `j` in a chunk. */
  function LocalAt(j: int): Vec3 { Decode(j) }

  /** The vertices block `j` of the chunk at `o` contributes to the mesh of material `mat`. */
  function BlockVertices(snap: Snapshot, o: Vec3, local: seq<int>, mat: int, j: int): seq<Vertex>
    requires 0 <= j < |local|
  {
    if local[j] != mat then [] else FacesUpTo(snap, Add(o, LocalAt(j)), local[j], 6)
  }

  /** Block `j` has material `mat` and its top neighbour (found by a global query) keeps the top face. */
  predicate EmitsTop(snap: Snapshot, o: Vec3, local: seq<int>, mat: int, j: int)
  {
    0 <= j < |local| && local[j] == mat
    && FaceKept(mat, BlockIn(snap, Add(Add(o, LocalAt(j)), Vec3(0, 0, 1))))
  }

  /** Direction `k` pushes vertices only as the kept top face (`k == 5`, `s == 1`, `dir == 2`). */
  lemma DirFacesTopOnly(snap: Snapshot, gp: Vec3, blk: int, k: int)
    requires 0 <= k < 6
    ensures DirFaces(snap, gp, blk, k)
            == if k == 5 && FaceKept(blk, BlockIn(snap, Add(gp, Vec3(0, 0, 1)))) then TopFace(gp) else []
  {
    if k < 5 {
      assert Normal(DirSign(k), DirAxis(k)).z != 1;
    } else {
      assert Normal(DirSign(k), DirAxis(k)) == Vec3(0, 0, 1);
    }
  }

  /** The first five directions push nothing. */
  lemma {:induction false} FacesBeforeTop(snap: Snapshot, gp: Vec3, blk: int, k: nat)
    requires k <= 5
    ensures FacesUpTo(snap, gp, blk, k) == []
  {
    if k > 0 {
      FacesBeforeTop(snap, gp, blk, k - 1);
      DirFacesTopOnly(snap, gp, blk, k - 1);
    }
  }

  /** Of the six directions only +Z pushes vertices: a block contributes its top face or nothing. */
  lemma BlockVerticesTopOnly(snap: Snapshot, o: Vec3, local: seq<int>, mat: int, j: int)
    requires 0 <= j < |local|
    ensures BlockVertices(snap, o, local, mat, j)
            == if EmitsTop(snap, o, local, mat, j) then TopFace(Add(o, LocalAt(j))) else []
    ensures BlockVertices(snap, o, local, mat, j) == [] <==> !EmitsTop(snap, o, local, mat, j)
  {
    var gp := Add(o, LocalAt(j));
    if local[j] == mat {
      FacesBeforeTop(snap, gp, mat, 5);
      DirFacesTopOnly(snap, gp, mat, 5);
    }
  }

  /** The vertices of the blocks with flat index below `n`, in loop order. */
  function VerticesUpTo(snap: Snapshot, o: Vec3, local: seq<int>, mat: int, n: nat): seq<Vertex>
    requires n <= |local|
  {
    if n == 0 then [] else VerticesUpTo(snap, o, local, mat, n - 1) + BlockVertices(snap, o, local, mat, n - 1)
  }

  /** The block at local `(x, y, z)` appends its faces when it has material `mat`, and nothing otherwise. */
  lemma VerticesUpToStep(snap: Snapshot, o: Vec3, local: seq<int>, mat: int, x: int, y: int, z: int)
    requires |local| == Volume && 0 <= x < ChunkSize && 0 <= y < ChunkSize && 0 <= z < ChunkSize
    ensures VerticesUpTo(snap, o, local, mat, x + 32 * y + 1024 * z + 1)
         == VerticesUpTo(snap, o, local, mat, x + 32 * y + 1024 * z)
            + (if local[x + 32 * y + 1024 * z] != mat then [] else FacesUpTo(snap, Add(o, Vec3(x, y, z)), mat, 6))
  {
    DecodeIndex(Vec3(x, y, z));
  }

  /** The vertex list `buildMeshFor(mat)` assembles for the chunk at `o` with blocks `local`. */
  function ChunkVertices(snap: Snapshot, o: Vec3, local: seq<int>, mat: int): seq<Vertex>
  {
    VerticesUpTo(snap, o, local, mat, |local|)
  }

  /** The vertex list is empty exactly when no block of the material shows its top face. */
  lemma {:induction false} VerticesUpToEmpty(snap: Snapshot, o: Vec3, local: seq<int>, mat: int, n: nat)
    requires n <= |local|
    ensures VerticesUpTo(snap, o, local, mat, n) == [] <==> forall j | 0 <= j < n :: !EmitsTop(snap, o, local, mat, j)
  {
    if n > 0 {
      var prev, last := VerticesUpTo(snap, o, local, mat, n - 1), BlockVertices(snap, o, local, mat, n - 1);
      assert VerticesUpTo(snap, o, local, mat, n) == prev + last;
      VerticesUpToEmpty(snap, o, local, mat, n - 1);
      BlockVerticesTopOnly(snap, o, local, mat, n - 1);
      assert |prev + last| == |prev| + |last|;
    }
  }

  /** `v` is a corner of the top face that block `j` shows in the mesh of `mat`. */
  predicate TopCorner(snap: Snapshot, o: Vec3, local: seq<int>, mat: int, j: int, v: Vertex)
  {
    EmitsTop(snap, o, local, mat, j) && v in TopFace(Add(o, LocalAt(j)))
  }

  lemma BlockVerticesMembers(snap: Snapshot, o: Vec3, local: seq<int>, mat: int, j: int, v: Vertex)
    requires 0 <= j < |local|
    ensures v in BlockVertices(snap, o, local, mat, j) <==> TopCorner(snap, o, local, mat, j, v)
  {
    BlockVerticesTopOnly(snap, o, local, mat, j);
  }

  /** Every vertex of the list is a corner of the top face of a block of the material that shows it. */
  lemma {:induction false} VerticesUpToSound(snap: Snapshot, o: Vec3, local: seq<int>, mat: int, n: nat, v: Vertex)
    requires n <= |local| && v in VerticesUpTo(snap, o, local, mat, n)
    ensures exists j | 0 <= j < n :: TopCorner(snap, o, local, mat, j, v)
  {
    var prev, last := VerticesUpTo(snap, o, local, mat, n - 1), BlockVertices(snap, o, local, mat, n - 1);
    assert VerticesUpTo(snap, o, local, mat, n) == prev + last;
    if v in prev {
      VerticesUpToSound(snap, o, local, mat, n - 1, v);
    } else {
      BlockVerticesMembers(snap, o, local, mat, n - 1, v);
    }
  }

  /** Every corner of a top face that a block below `n` shows is in the list. */
  lemma {:induction false} VerticesUpToComplete(snap: Snapshot, o: Vec3, local: seq<int>, mat: int, n: nat, j: int, v: Vertex)
    requires n <= |local| && 0 <= j < n && TopCorner(snap, o, local, mat, j, v)
    ensures v in VerticesUpTo(snap, o, local, mat, n)
  {
    var prev, last := VerticesUpTo(snap, o, local, mat, n - 1), BlockVertices(snap, o, local, mat, n - 1);
    assert VerticesUpTo(snap, o, local, mat, n) == prev + last;
    if j < n - 1 {
      VerticesUpToComplete(snap, o, local, mat, n - 1, j, v);
    } else {
      BlockVerticesMembers(snap, o, local, mat, n - 1, v);
    }
  }

  /** Every emitted vertex carries the +Z face code `s * (dir + 1) == 3`. */
  lemma ChunkVerticesCode(snap: Snapshot, o: Vec3, local: seq<int>, mat: int, v: Vertex)
    requires v in ChunkVertices(snap, o, local, mat)
    ensures v.w == 3
  {
    VerticesUpToSound(snap, o, local, mat, |local|, v);
  }

  /** The non-air materials that occur among the blocks `local`. */
  function MaterialsIn(local: seq<int>): set<int>
  {
    set j | 0 <= j < |local| && !IsAir(local[j]) :: local[j]
  }

  /**
   * The mesh cache `queryMeshes` builds: one entry per non-air material of
   * the chunk, holding that material's vertex list, for every material whose
   * list is not empty.
   */
  function MeshTable(snap: Snapshot, o: Vec3, local: seq<int>): map<int, seq<Vertex>>
  {
    map m | m in MaterialsIn(local) && ChunkVertices(snap, o, local, m) != [] :: ChunkVertices(snap, o, local, m)
  }

  /** A material gets a mesh exactly when it is not air and some block of it shows its top face. */
  lemma MeshTableKeys(snap: Snapshot, o: Vec3, local: seq<int>, m: int)
    ensures m in MeshTable(snap, o, local) <==> !IsAir(m) && exists j | 0 <= j < |local| :: EmitsTop(snap, o, local, m, j)
  {
    VerticesUpToEmpty(snap, o, local, m, |local|);
  }

  /** The part of the mesh table for the materials among the first `n` blocks: what `queryMeshes` holds after visiting them. */
  function MeshTableUpTo(snap: Snapshot, o: Vec3, local: seq<int>, n: nat): map<int, seq<Vertex>>
    requires n <= |local|
  {
    map m | m in MaterialsIn(local[..n]) && ChunkVertices(snap, o, local, m) != [] :: ChunkVertices(snap, o, local, m)
  }

  /** The materials among the first `n + 1` blocks are those among the first `n` and block `n` unless it is air. */
  lemma MaterialsInStep(local: seq<int>, n: nat)
    requires n < |local|
    ensures MaterialsIn(local[..n + 1]) == MaterialsIn(local[..n]) + if IsAir(local[n]) then {} else {local[n]}
  {
    var a, b := local[..n + 1], local[..n];
    assert forall j | 0 <= j < n :: a[j] == b[j];
    assert a[n] == local[n];
  }

  /**
   * Visiting block `n` adds the mesh of its material when that material is
   * not air, was not met before, and has a non-empty vertex list; otherwise
   * the table stays as it is.
   */
  lemma MeshTableUpToStep(snap: Snapshot, o: Vec3, local: seq<int>, n: nat)
    requires n < |local|
    ensures var m := local[n];
            MeshTableUpTo(snap, o, local, n + 1)
            == if IsAir(m) || m in MaterialsIn(local[..n]) || ChunkVertices(snap, o, local, m) == [] then MeshTableUpTo(snap, o, local, n)
               else MeshTableUpTo(snap, o, local, n)[m := ChunkVertices(snap, o, local, m)]
  {
    MaterialsInStep(local, n);
  }

  lemma MeshTableUpToAll(snap: Snapshot, o: Vec3, local: seq<int>)
    ensures MeshTableUpTo(snap, o, local, |local|) == MeshTable(snap, o, local)
    ensures MeshTableUpTo(snap, o, local, 0) == map[]
  {
    assert local[..|local|] == local;
  }

  // ---- fake ambient occlusion ---------------------------------------------

  /** The three blocks `aoAt(pos)` samples, as offsets from `pos`: side, diagonal, side. */
  const AoSide1: Vec3 := Vec3(-1, 1, 0)
  const AoDiagonal: Vec3 := Vec3(-1, 1, -1)
  const AoSide2: Vec3 := Vec3(0, 1, -1)

  /** `aoAt` as written: the brightness for the solidity of the two sides and the diagonal. */
  function AoAsWritten(b1: int, b2: int, b3: int): real
  {
    if IsSolid(b1) && IsSolid(b3) then 0.0
    else if (IsSolid(b1) || IsSolid(b3)) && IsSolid(b2) then 1.0 / 3.0
    else if IsSolid(b1) || IsSolid(b3) || IsSolid(b2) then 2.0 / 3.0
    else 0.0
  }

  /** As written, a corner with no occluder at all is as dark as a fully occluded one. */
  lemma AoAsWrittenUnoccludedIsDark()
    ensures AoAsWritten(Air, Air, Air) == 0.0
    ensures AoAsWritten(Air, 1, Air) == 2.0 / 3.0
  {
  }

  /** The intended brightness: two solid sides give 0, otherwise one third per free sample. */
  function Ao(b1: int, b2: int, b3: int): real
  {
    if IsSolid(b1) && IsSolid(b3) then 0.0
    else if (IsSolid(b1) || IsSolid(b3)) && IsSolid(b2) then 1.0 / 3.0
    else if IsSolid(b1) || IsSolid(b3) || IsSolid(b2) then 2.0 / 3.0
    else 1.0
  }

  /** The corrected brightness agrees with the written one except for the unoccluded corner. */
  lemma AoCorrectsOnlyUnoccluded(b1: int, b2: int, b3: int)
    ensures Ao(b1, b2, b3) == AoAsWritten(b1, b2, b3) <==> IsSolid(b1) || IsSolid(b2) || IsSolid(b3)
  {
  }

  /** Making samples solid never brightens a corner, and brightness lies in `[0, 1]`. */
  lemma AoMonotone(a1: int, a2: int, a3: int, b1: int, b2: int, b3: int)
    requires IsSolid(a1) ==> IsSolid(b1)
    requires IsSolid(a2) ==> IsSolid(b2)
    requires IsSolid(a3) ==> IsSolid(b3)
    ensures 0.0 <= Ao(b1, b2, b3) <= Ao(a1, a2, a3) <= 1.0
  {
  }

  // ---- the local neighbour access as written --------------------------------

  /** The local position `n + p` that `buildMeshFor` and `aoAt` hand to the chunk-local accessor. */
  function LocalNeighbour(p: Vec3, n: Vec3): Vec3 { Add(n, p) }

  /**
   * For a block in the top layer, the +Z neighbour's local position lies
   * outside the chunk, and its flat index is one past the last block.
   */
  lemma LocalNeighbourLeavesChunk()
    ensures InCube(Vec3(0, 0, 31))
    ensures !InCube(LocalNeighbour(Vec3(0, 0, 31), Normal(1, 2)))
    ensures Index(LocalNeighbour(Vec3(0, 0, 31), Normal(1, 2))) == Volume
    ensures !InCube(LocalNeighbour(Vec3(0, 0, 0), AoSide1))
  {
  }

  /**
   * `aoAt` reads its samples with the chunk-local `block(pos + ...)`: at
   * local (0, 0, 0) the side sample (-1, 1, 0) leaves the chunk yet has the
   * flat index of local (31, 0, 0), another block of the same chunk, and the
   * other side sample (0, 1, -1) has a negative flat index.
   */
  lemma AoSamplesLeaveChunk()
    ensures !InCube(Add(Vec3(0, 0, 0), AoSide1)) && !InCube(Add(Vec3(0, 0, 0), AoSide2))
    ensures InCube(Vec3(31, 0, 0)) && Index(Add(Vec3(0, 0, 0), AoSide1)) == Index(Vec3(31, 0, 0))
    ensures Index(Add(Vec3(0, 0, 0), AoSide2)) < 0
  {
  }
}
