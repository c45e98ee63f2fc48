/**
 * The parts of the voxel game (assignment07/Assignment07.cc) that drive the
 * world: the block edit on a mouse click, the world rebuild around the
 * player, and the material filter of the render passes. Window events,
 * cameras and rendering are not part of this model; their results arrive
 * here as parameters.
 */
module Game {
  import opened Coords
  import opened Blocks
  import opened Meshing
  import opened Marking
  import opened RayMath
  import opened Voxel

  // ---- render passes --------------------------------------------------------

  /** `RenderPass` */
  datatype RenderPass = Shadow | Opaque | Transparent

  /** The material check of `renderScene`: meshes of material index `matIdx` are drawn in `pass`. */
  predicate DrawnIn(matIdx: int, pass: RenderPass)
  {
    !(matIdx < 0 && pass != Transparent) && !(matIdx > 0 && pass != Opaque && pass != Shadow)
  }

  /**
   * Translucent (negative) materials are drawn in the transparent pass
   * only, opaque (positive) ones in the opaque and the shadow pass only.
   */
  lemma PassFilter(matIdx: int, pass: RenderPass)
    ensures IsTranslucent(matIdx) ==> (DrawnIn(matIdx, pass) <==> pass == Transparent)
    ensures IsSolid(matIdx) ==> (DrawnIn(matIdx, pass) <==> pass == Opaque || pass == Shadow)
  {
  }

  /** The meshes of a chunk's mesh table that a pass draws: a part of the table, and only of materials the pass accepts. */
  function PassMeshes(table: map<int, seq<Vertex>>, pass: RenderPass): (r: map<int, seq<Vertex>>)
    ensures r.Keys <= table.Keys
    ensures forall m | m in r :: r[m] == table[m] && DrawnIn(m, pass)
    ensures forall m | m in table && DrawnIn(m, pass) :: m in r
  {
    map m | m in table && DrawnIn(m, pass) :: table[m]
  }

  /** Every mesh of a chunk is drawn in exactly one colour pass: the opaque or the transparent one. */
  lemma {:induction false} MeshInOneColourPass(snap: Snapshot, o: Vec3, local: seq<int>, m: int)
    requires m in MeshTable(snap, o, local)
    ensures m in PassMeshes(MeshTable(snap, o, local), Opaque) <==> m !in PassMeshes(MeshTable(snap, o, local), Transparent)
    ensures m in PassMeshes(MeshTable(snap, o, local), Opaque) <==> m in PassMeshes(MeshTable(snap, o, local), Shadow)
  {
    MeshTableKeys(snap, o, local, m);
  }

  // ---- editing ----------------------------------------------------------------

  /** What a click does to the world. */
  datatype Edit =
    | NoEdit                     // not a left press on a hit block
    | Remove(pos: Vec3)          // Ctrl: the hit block becomes air
    | Pick(mat: int)             // Shift: the pipette picks the hit block's material
    | Place(pos: Vec3, mat: int) // no modifier: the current material is placed in front of the hit face

  /**
   * The decision of `onMouseButton` for ray hit `hit`, a left-button press
   * or not, the Ctrl and Shift modifiers, and the current material.
   */
  function EditFor(hit: RayHit, leftPress: bool, ctrl: bool, shift: bool, current: int): (e: Edit)
    ensures e != NoEdit <==> hit.hasHit && leftPress
    ensures e.Remove? <==> hit.hasHit && leftPress && ctrl
    ensures e.Pick? <==> hit.hasHit && leftPress && !ctrl && shift
    ensures e.Remove? ==> e.pos == hit.blockPos
    ensures e.Pick? ==> e.mat == hit.block
    ensures e.Place? ==> e.pos == Add(hit.blockPos, hit.hitNormal) && e.mat == current
  {
    if !(hit.hasHit && leftPress) then NoEdit
    else if ctrl then Remove(hit.blockPos)
    else if shift then Pick(hit.block)
    else Place(Add(hit.blockPos, hit.hitNormal), current)
  }

  /** The edited position and its new material, for an edit that writes a block. */
  predicate Writes(e: Edit) { e.Remove? || e.Place? }

  function WrittenMaterial(e: Edit): int
    requires Writes(e)
  {
    if e.Remove? then Air else e.mat
  }

  /**
   * An edit on the world's chunks: a writing edit writes its block through
   * `queryBlockMutable` and then calls `markDirty(pos, 1)`; a pick changes
   * no chunk.
   */
  function ApplyEdit(gen: Terrain, m: ChunkMap, e: Edit): ChunkMap
  {
    if Writes(e) then MarkDirtyAt(gen, SetAt(EnsureAt(gen, m, e.pos), e.pos, WrittenMaterial(e)), e.pos, 1) else m
  }

  /** `q` is within one block of `p` on every axis. */
  predicate Around(q: Vec3, p: Vec3)
  {
    -1 <= q.x - p.x <= 1 && -1 <= q.y - p.y <= 1 && -1 <= q.z - p.z <= 1
  }

  /**
   * After a writing edit the edited position reads the new material, every
   * other position of an existing chunk reads as before, and the chunk of
   * every position around the edited one exists and will rebuild its mesh.
   * A pick or no edit leaves the chunks as they are.
   */
  lemma {:induction false} ApplyEditEffect(gen: Terrain, m: ChunkMap, e: Edit, q: Vec3)
    requires WellFormed(BlocksOf(m))
    ensures !Writes(e) ==> ApplyEdit(gen, m, e) == m
    ensures Writes(e) ==> BlockIn(BlocksOf(ApplyEdit(gen, m, e)), e.pos) == WrittenMaterial(e)
    ensures Writes(e) && q != e.pos && ChunkPos(q) in m ==> BlockIn(BlocksOf(ApplyEdit(gen, m, e)), q) == BlockIn(BlocksOf(m), q)
    ensures Writes(e) && Around(q, e.pos) ==>
              ChunkPos(q) in ApplyEdit(gen, m, e) && ApplyEdit(gen, m, e)[ChunkPos(q)].cache == MarkedCache
  {
    if Writes(e) {
      var p, v := e.pos, WrittenMaterial(e);
      var m1 := EnsureAt(gen, m, p);
      var m2 := SetAt(m1, p, v);
      EnsureAtEffect(gen, m, p);
      SetAtKeepsCaches(m1, p, v);
      MarkDirtyEffect(gen, m2, p, 1);
      assert ChunkPos(p) in m ==> BlocksOf(m)[ChunkPos(p)] == m[ChunkPos(p)].blocks;
      SetAtReads(m1, p, v, p);
      GrownByBlocks(gen, m2, ApplyEdit(gen, m, e), p);
      SetAtReads(m1, p, v, q);
      GrownByBlocks(gen, m2, ApplyEdit(gen, m, e), q);
      GrownByBlocks(gen, m, m1, q);
      if Around(q, p) {
        MarkDirtyOneCoversNeighbours(gen, m2, p, q);
      }
    }
  }

  /**
   * A placement in front of the face a ray cast hit writes into an air
   * block: the voxel the walk visited just before the hit one.
   */
  lemma PlaceIntoAir(snap: Snapshot, pos: RVec, dir: RVec, maxRange: real, leftPress: bool, ctrl: bool, shift: bool, current: int)
    requires NonZero(dir)
    requires var e := EditFor(Cast(snap, pos, dir, maxRange), leftPress, ctrl, shift, current);
             e.Place? && Cast(snap, pos, dir, maxRange).hitNormal != Vec3(0, 0, 0)
    ensures IsAir(BlockIn(snap, EditFor(Cast(snap, pos, dir, maxRange), leftPress, ctrl, shift, current).pos))
  {
    CastFacts(snap, pos, dir, maxRange);
  }

  /**
   * `onMouseButton` after the ray hit `hit` is known: a left-button press on
   * a hit block removes it (Ctrl), picks its material (Shift) or places the
   * current material in front of the hit face, and a removal or placement
   * marks the chunks around the edited position dirty. The result says
   * whether the click was consumed, and the current material afterwards.
   */
  method OnMouseButton(world: World, hit: RayHit, leftPress: bool, ctrl: bool, shift: bool, current: int)
    returns (handled: bool, current': int)
    requires world.Valid()
    modifies world`chunks, world`state, world`Repr, world.Repr
    ensures world.Valid()
    ensures handled == (hit.hasHit && leftPress)
    ensures world.state == ApplyEdit(world.gen, old(world.state), EditFor(hit, leftPress, ctrl, shift, current))
    ensures current' == if EditFor(hit, leftPress, ctrl, shift, current).Pick? then hit.block else current
  {
    current' := current;
    if hit.hasHit && leftPress {
      var modified := false;
      var bPos := hit.blockPos;
      var blockMat := hit.block;
      if ctrl {
        world.SetBlock(bPos, Air);
        modified := true;
      } else if shift {
        current' := blockMat;
      } else {
        bPos := Add(bPos, hit.hitNormal);
        world.SetBlock(bPos, current);
        modified := true;
      }
      if modified {
        world.MarkDirty(bPos, 1);
      }
      return true, current';
    }
    return false, current';
  }

  // ---- rebuilding the world -------------------------------------------------

  /** `radY`: the vertical reach of `rebuildWorld`, in blocks. */
  const RadY: int := 32

  /** The offsets `rebuildWorld` visits: `|x|, |z| <= rad` and `|y| <= 32`. */
  predicate InBox(d: Vec3, rad: int)
  {
    -rad <= d.x <= rad && -RadY <= d.y <= RadY && -rad <= d.z <= rad
  }

  /** Chunk `o` holds `refPos + (x, y, z)` for some `x` in `[lo, hi)`. */
  predicate RowHas(refPos: Vec3, y: int, z: int, lo: int, hi: int, o: Vec3)
  {
    exists x | lo <= x < hi :: ChunkPos(Add(refPos, Vec3(x, y, z))) == o
  }

  /** Chunk `o` holds `refPos + (x, y, z)` for some `x` in `[xlo, xhi)` and `y` in `[lo, hi)`. */
  predicate SlabHas(refPos: Vec3, xlo: int, xhi: int, z: int, lo: int, hi: int, o: Vec3)
  {
    exists y | lo <= y < hi :: RowHas(refPos, y, z, xlo, xhi, o)
  }

  /** Chunk `o` holds `refPos + (x, y, z)` for some `x` in `[xlo, xhi)`, `y` in `[ylo, yhi)` and `z` in `[lo, hi)`. */
  predicate BoxHas(refPos: Vec3, xlo: int, xhi: int, ylo: int, yhi: int, lo: int, hi: int, o: Vec3)
  {
    exists z | lo <= z < hi :: SlabHas(refPos, xlo, xhi, z, ylo, yhi, o)
  }

  /** The chunks after `ensureChunkAt(refPos + (x, y, z))` for `x` in `[lo, hi)`, in order, starting from `m`. */
  function RowDone(gen: Terrain, m: ChunkMap, refPos: Vec3, y: int, z: int, lo: int, hi: int): ChunkMap
    decreases hi - lo
  {
    if hi <= lo then m else EnsureAt(gen, RowDone(gen, m, refPos, y, z, lo, hi - 1), Add(refPos, Vec3(hi - 1, y, z)))
  }

  /** The same for `x` in `[xlo, xhi)` and `y` in `[lo, hi)`, `y` in the outer loop. */
  function SlabDone(gen: Terrain, m: ChunkMap, refPos: Vec3, xlo: int, xhi: int, z: int, lo: int, hi: int): ChunkMap
    decreases hi - lo
  {
    if hi <= lo then m else RowDone(gen, SlabDone(gen, m, refPos, xlo, xhi, z, lo, hi - 1), refPos, hi - 1, z, xlo, xhi)
  }

  /** The same for `|x| <= rad`, `|y| <= 32` and `z` in `[lo, hi)`, `z` in the outermost loop. */
  function BoxDone(gen: Terrain, m: ChunkMap, refPos: Vec3, rad: int, lo: int, hi: int): ChunkMap
    decreases hi - lo
  {
    if hi <= lo then m else SlabDone(gen, BoxDone(gen, m, refPos, rad, lo, hi - 1), refPos, -rad, rad + 1, hi - 1, -RadY, RadY + 1)
  }

  /** The chunks `rebuildWorld` leaves: those its loops ensure, starting from none. */
  function Rebuilt(gen: Terrain, refPos: Vec3, rad: int): ChunkMap
  {
    BoxDone(gen, map[], refPos, rad, -rad, rad + 1)
  }

  lemma {:induction false} RowDoneHas(gen: Terrain, m: ChunkMap, refPos: Vec3, y: int, z: int, lo: int, hi: int, o: Vec3)
    ensures o in RowDone(gen, m, refPos, y, z, lo, hi) <==> o in m || RowHas(refPos, y, z, lo, hi, o)
    decreases hi - lo
  {
    if lo < hi {
      var p := Add(refPos, Vec3(hi - 1, y, z));
      RowDoneHas(gen, m, refPos, y, z, lo, hi - 1, o);
      EnsureAtKeys(gen, RowDone(gen, m, refPos, y, z, lo, hi - 1), p);
      if ChunkPos(p) == o {
        assert lo <= hi - 1 < hi;
      }
      if RowHas(refPos, y, z, lo, hi, o) && ChunkPos(p) != o {
        var x :| lo <= x < hi && ChunkPos(Add(refPos, Vec3(x, y, z))) == o;
        assert lo <= x < hi - 1;
      }
    }
  }

  lemma {:induction false} RowDoneEvolves(gen: Terrain, m: ChunkMap, refPos: Vec3, y: int, z: int, lo: int, hi: int)
    ensures Evolves(gen, m, RowDone(gen, m, refPos, y, z, lo, hi))
    decreases hi - lo
  {
    if hi <= lo {
      EvolvesReflexive(gen, m);
    } else {
      var prev := RowDone(gen, m, refPos, y, z, lo, hi - 1);
      var next := EnsureAt(gen, prev, Add(refPos, Vec3(hi - 1, y, z)));
      assert RowDone(gen, m, refPos, y, z, lo, hi) == next;
      RowDoneEvolves(gen, m, refPos, y, z, lo, hi - 1);
      EnsureAtEffect(gen, prev, Add(refPos, Vec3(hi - 1, y, z)));
      EvolvesTransitive(gen, m, prev, next);
    }
  }

  /** The slab of `y` in `[lo, hi)` is the slab of `y` in `[lo, hi - 1)` and the row at `hi - 1`. */
  lemma SlabHasStep(refPos: Vec3, xlo: int, xhi: int, z: int, lo: int, hi: int, o: Vec3)
    requires lo < hi
    ensures SlabHas(refPos, xlo, xhi, z, lo, hi, o) <==> SlabHas(refPos, xlo, xhi, z, lo, hi - 1, o) || RowHas(refPos, hi - 1, z, xlo, xhi, o)
  {
    if SlabHas(refPos, xlo, xhi, z, lo, hi, o) && !RowHas(refPos, hi - 1, z, xlo, xhi, o) {
      var y :| lo <= y < hi && RowHas(refPos, y, z, xlo, xhi, o);
      assert lo <= y < hi - 1;
    }
    if RowHas(refPos, hi - 1, z, xlo, xhi, o) {
      assert lo <= hi - 1 < hi;
    }
  }

  lemma {:induction false} SlabDoneHas(gen: Terrain, m: ChunkMap, refPos: Vec3, xlo: int, xhi: int, z: int, lo: int, hi: int, o: Vec3)
    ensures o in SlabDone(gen, m, refPos, xlo, xhi, z, lo, hi) <==> o in m || SlabHas(refPos, xlo, xhi, z, lo, hi, o)
    decreases hi - lo
  {
    if lo < hi {
      SlabDoneHas(gen, m, refPos, xlo, xhi, z, lo, hi - 1, o);
      RowDoneHas(gen, SlabDone(gen, m, refPos, xlo, xhi, z, lo, hi - 1), refPos, hi - 1, z, xlo, xhi, o);
      SlabHasStep(refPos, xlo, xhi, z, lo, hi, o);
    }
  }

  lemma {:induction false} SlabDoneEvolves(gen: Terrain, m: ChunkMap, refPos: Vec3, xlo: int, xhi: int, z: int, lo: int, hi: int)
    ensures Evolves(gen, m, SlabDone(gen, m, refPos, xlo, xhi, z, lo, hi))
    decreases hi - lo
  {
    if hi <= lo {
      EvolvesReflexive(gen, m);
    } else {
      var prev := SlabDone(gen, m, refPos, xlo, xhi, z, lo, hi - 1);
      SlabDoneEvolves(gen, m, refPos, xlo, xhi, z, lo, hi - 1);
      RowDoneEvolves(gen, prev, refPos, hi - 1, z, xlo, xhi);
      EvolvesTransitive(gen, m, prev, SlabDone(gen, m, refPos, xlo, xhi, z, lo, hi));
    }
  }

  /** The box of `z` in `[lo, hi)` is the box of `z` in `[lo, hi - 1)` and the slab at `hi - 1`. */
  lemma BoxHasStep(refPos: Vec3, xlo: int, xhi: int, ylo: int, yhi: int, lo: int, hi: int, o: Vec3)
    requires lo < hi
    ensures BoxHas(refPos, xlo, xhi, ylo, yhi, lo, hi, o)
            <==> BoxHas(refPos, xlo, xhi, ylo, yhi, lo, hi - 1, o) || SlabHas(refPos, xlo, xhi, hi - 1, ylo, yhi, o)
  {
    if BoxHas(refPos, xlo, xhi, ylo, yhi, lo, hi, o) && !SlabHas(refPos, xlo, xhi, hi - 1, ylo, yhi, o) {
      var z :| lo <= z < hi && SlabHas(refPos, xlo, xhi, z, ylo, yhi, o);
      assert lo <= z < hi - 1;
    }
    if SlabHas(refPos, xlo, xhi, hi - 1, ylo, yhi, o) {
      assert lo <= hi - 1 < hi;
    }
  }

  lemma {:induction false} BoxDoneHas(gen: Terrain, m: ChunkMap, refPos: Vec3, rad: int, lo: int, hi: int, o: Vec3)
    ensures o in BoxDone(gen, m, refPos, rad, lo, hi) <==> o in m || BoxHas(refPos, -rad, rad + 1, -RadY, RadY + 1, lo, hi, o)
    decreases hi - lo
  {
    if lo < hi {
      BoxDoneHas(gen, m, refPos, rad, lo, hi - 1, o);
      SlabDoneHas(gen, BoxDone(gen, m, refPos, rad, lo, hi - 1), refPos, -rad, rad + 1, hi - 1, -RadY, RadY + 1, o);
      BoxHasStep(refPos, -rad, rad + 1, -RadY, RadY + 1, lo, hi, o);
    }
  }

  lemma {:induction false} BoxDoneEvolves(gen: Terrain, m: ChunkMap, refPos: Vec3, rad: int, lo: int, hi: int)
    ensures Evolves(gen, m, BoxDone(gen, m, refPos, rad, lo, hi))
    decreases hi - lo
  {
    if hi <= lo {
      EvolvesReflexive(gen, m);
    } else {
      var prev := BoxDone(gen, m, refPos, rad, lo, hi - 1);
      BoxDoneEvolves(gen, m, refPos, rad, lo, hi - 1);
      SlabDoneEvolves(gen, prev, refPos, -rad, rad + 1, hi - 1, -RadY, RadY + 1);
      EvolvesTransitive(gen, m, prev, BoxDone(gen, m, refPos, rad, lo, hi));
    }
  }

  /** A chunk nested in the three loops holds a position of the box, and back. */
  lemma BoxHasExactly(refPos: Vec3, rad: int, o: Vec3)
    ensures BoxHas(refPos, -rad, rad + 1, -RadY, RadY + 1, -rad, rad + 1, o) <==> exists d: Vec3 | InBox(d, rad) :: ChunkPos(Add(refPos, d)) == o
  {
    if BoxHas(refPos, -rad, rad + 1, -RadY, RadY + 1, -rad, rad + 1, o) {
      var z :| -rad <= z < rad + 1 && SlabHas(refPos, -rad, rad + 1, z, -RadY, RadY + 1, o);
      var y :| -RadY <= y < RadY + 1 && RowHas(refPos, y, z, -rad, rad + 1, o);
      var x :| -rad <= x < rad + 1 && ChunkPos(Add(refPos, Vec3(x, y, z))) == o;
      assert InBox(Vec3(x, y, z), rad);
    }
    if exists d: Vec3 | InBox(d, rad) :: ChunkPos(Add(refPos, d)) == o {
      var d: Vec3 :| InBox(d, rad) && ChunkPos(Add(refPos, d)) == o;
      assert d == Vec3(d.x, d.y, d.z);
      assert RowHas(refPos, d.y, d.z, -rad, rad + 1, o);
      assert SlabHas(refPos, -rad, rad + 1, d.z, -RadY, RadY + 1, o);
    }
  }

  /**
   * The chunks `rebuildWorld` leaves are exactly those holding a position
   * `refPos + d` with `|d.x|, |d.z| <= rad` and `|d.y| <= 32`.
   */
  lemma RebuiltChunks(gen: Terrain, refPos: Vec3, rad: int, o: Vec3)
    ensures o in Rebuilt(gen, refPos, rad) <==> exists d: Vec3 | InBox(d, rad) :: ChunkPos(Add(refPos, d)) == o
  {
    BoxDoneHas(gen, map[], refPos, rad, -rad, rad + 1, o);
    BoxHasExactly(refPos, rad, o);
  }

  /** Every chunk `rebuildWorld` leaves is freshly generated and waits for its first mesh build. */
  lemma RebuiltFresh(gen: Terrain, refPos: Vec3, rad: int)
    ensures Evolves(gen, map[], Rebuilt(gen, refPos, rad))
  {
    BoxDoneEvolves(gen, map[], refPos, rad, -rad, rad + 1);
  }

  /**
   * `rebuildWorld`: clears the world, then ensures the chunk of every
   * position `refPos + (x, y, z)` with `|x|, |z| <= rad` and `|y| <= 32`,
   * in `z, y, x` order. Afterwards the world holds exactly those chunks,
   * each freshly generated and waiting for its first mesh build.
   */
  method RebuildWorld(world: World, refPos: Vec3, rad: int)
    requires world.Valid()
    modifies world`chunks, world`state, world`Repr, world.Repr
    ensures world.Valid()
    ensures world.state == Rebuilt(world.gen, refPos, rad)
  {
    world.ClearChunks();
    RebuildBox(world, refPos, rad);
  }

  /** The `z` loop of `rebuildWorld`, on a cleared world. */
  method RebuildBox(world: World, refPos: Vec3, rad: int)
    requires world.Valid() && world.state == map[]
    modifies world`chunks, world`state, world`Repr, world.Repr
    ensures world.Valid()
    ensures world.state == Rebuilt(world.gen, refPos, rad)
  {
    for z := -rad to if rad < 0 then -rad else rad + 1
      invariant world.Valid() && world.Extends()
      invariant world.state == BoxDone(world.gen, map[], refPos, rad, -rad, z)
    {
      RebuildSlab(world, refPos, rad, z);
    }
  }

  /** The `y` and `x` loops of `rebuildWorld` for one `z`. */
  method RebuildSlab(world: World, refPos: Vec3, rad: int, z: int)
    requires world.Valid()
    modifies world`chunks, world`state, world`Repr, world.Repr
    ensures world.Valid() && world.Extends()
    ensures world.state == SlabDone(world.gen, old(world.state), refPos, -rad, rad + 1, z, -RadY, RadY + 1)
  {
    for y := -RadY to RadY + 1
      invariant world.Valid() && world.Extends()
      invariant world.state == SlabDone(world.gen, old(world.state), refPos, -rad, rad + 1, z, -RadY, y)
    {
      RebuildRow(world, refPos, rad, y, z);
    }
  }

  /** The `x` loop of `rebuildWorld` for one `y` and `z`. */
  method RebuildRow(world: World, refPos: Vec3, rad: int, y: int, z: int)
    requires world.Valid()
    modifies world`chunks, world`state, world`Repr, world.Repr
    ensures world.Valid() && world.Extends()
    ensures world.state == RowDone(world.gen, old(world.state), refPos, y, z, -rad, rad + 1)
  {
    for x := -rad to if rad < 0 then -rad else rad + 1
      invariant world.Valid() && world.Extends()
      invariant world.state == RowDone(world.gen, old(world.state), refPos, y, z, -rad, x)
    {
      world.EnsureChunkAt(Add(refPos, Vec3(x, y, z)));
    }
  }
}
