// The save path: an in-memory chunk written into its chunk document.
module AnvilEncoder {
  import opened AnvilTypes
  import opened BiomeIndexing
  import opened InMemoryChunk
  import opened AnvilRegion
  import opened AnvilDecoder

  /** The block state persisted for a block: `new BlockState(block.name(), block.properties())`. */
  function EncodeBlock(b: Block): BlockState {
    BlockState(b.name, b.properties)
  }

  /** `Objects.requireNonNullElseGet(block.nbt(), NBTCompound::new)`. */
  function NbtOf(b: Block): Compound {
    if b.nbt.Some? then b.nbt.value else map[]
  }

  /** The position a record's int tags x, y and z name, if it has all three. */
  function TaggedPos(r: Compound): Option<BlockPos> {
    var x, y, z := GetInt(r, "x"), GetInt(r, "y"), GetInt(r, "z");
    if x.Some? && y.Some? && z.Some? then Some(BlockPos(x.value, y.value, z.value)) else None
  }

  /**
   * The tile-entity record saved for a block with handler h at p: the block's
   * NBT data (or an empty compound) with id, x, y, z and keepPacked = 0 set.
   * It names h and p, and apart from the reserved tags it is the block's data.
   */
  function StampRecord(b: Block, h: BlockHandler, p: BlockPos): (r: Compound)
    ensures GetString(r, "id") == Some(h.namespaceId) && TaggedPos(r) == Some(p)
    ensures "keepPacked" in r && r["keepPacked"] == TagByte(0)
    ensures r - RESERVED_TAGS == NbtOf(b) - RESERVED_TAGS
    ensures forall k :: k in NbtOf(b) && k !in RESERVED_TAGS ==> k in r && r[k] == NbtOf(b)[k]
  {
    var r := NbtOf(b)["id" := TagString(h.namespaceId)]["x" := TagInt(p.x)]["y" := TagInt(p.y)]["z" := TagInt(p.z)]["keepPacked" := TagByte(0)];
    assert r - RESERVED_TAGS == NbtOf(b) - RESERVED_TAGS;
    r
  }

  /** The records one coordinate contributes: one if its block carries a handler. */
  function RecordAt(blocks: map<BlockPos, Block>, p: BlockPos): seq<Compound> {
    var b := BlockAt(blocks, p);
    if b.handler.Some? then [StampRecord(b, b.handler.value, p)] else []
  }

  /** `seq[slot := v]` when the slot exists. */
  function SetSlot(s: seq<int>, slot: int, v: int): (r: seq<int>)
    ensures |r| == |s|
  {
    if 0 <= slot < |s| then s[slot := v] else s
  }

  /** The block states after the save loops have run, iteration by iteration, up to the cursor (x, z, y). */
  function StatesBefore(states: map<BlockPos, BlockState>, blocks: map<BlockPos, Block>, x: int, z: int, y: int): map<BlockPos, BlockState>
    requires Cursor(x, z, y)
    decreases x, z, y
  {
    if y > 0 then StatesBefore(states, blocks, x, z, y - 1)[BlockPos(x, y - 1, z) := EncodeBlock(BlockAt(blocks, BlockPos(x, y - 1, z)))]
    else if z > 0 then StatesBefore(states, blocks, x, z - 1, CHUNK_HEIGHT)
    else if x > 0 then StatesBefore(states, blocks, x - 1, CHUNK_SIZE_Z, 0)
    else states
  }

  /** One iteration's biome write: slot BiomeIndex(x, 0, z) gets the id of the chunk's biome for (x, y, z). */
  function WriteBiome(ids: seq<int>, cb: seq<Biome>, x: int, y: int, z: int): seq<int>
    requires |cb| >= BIOME_COUNT
  {
    SetSlot(ids, BiomeIndex(x, 0, z), cb[BiomeIndex(x, y, z)].id)
  }

  /** The document's biome ids after the save loops have run, iteration by iteration, up to the cursor (x, z, y). */
  function SlotsBefore(b0: seq<int>, cb: seq<Biome>, x: int, z: int, y: int): seq<int>
    requires Cursor(x, z, y) && |cb| >= BIOME_COUNT
    decreases x, z, y
  {
    if y > 0 then WriteBiome(SlotsBefore(b0, cb, x, z, y - 1), cb, x, y - 1, z)
    else if z > 0 then SlotsBefore(b0, cb, x, z - 1, CHUNK_HEIGHT)
    else if x > 0 then SlotsBefore(b0, cb, x - 1, CHUNK_SIZE_Z, 0)
    else b0
  }

  /** The record list the save loops have built up to the cursor (x, z, y). */
  function RecordsBefore(blocks: map<BlockPos, Block>, x: int, z: int, y: int): seq<Compound>
    requires Cursor(x, z, y)
    decreases x, z, y
  {
    if y > 0 then RecordsBefore(blocks, x, z, y - 1) + RecordAt(blocks, BlockPos(x, y - 1, z))
    else if z > 0 then RecordsBefore(blocks, x, z - 1, CHUNK_HEIGHT)
    else if x > 0 then RecordsBefore(blocks, x - 1, CHUNK_SIZE_Z, 0)
    else []
  }

  // ------------------------------------------------ closed forms of save

  /** The block states written up to the cursor (x, z, y). */
  function EncodedBefore(blocks: map<BlockPos, Block>, x: int, z: int, y: int): map<BlockPos, BlockState> {
    map p | p in Extent && VisitedBefore(p, x, z, y) :: EncodeBlock(BlockAt(blocks, p))
  }

  /** Index of the top-layer cell (y = 255) above bottom-layer slot s: `63 << 4 | s`. */
  function TopCell(s: int): int {
    (CHUNK_HEIGHT / 4 - 1) * 16 + s
  }

  /**
   * The biome id a slot of the document holds up to the cursor (x, z, y):
   * every iteration writes slot BiomeIndex(x, 0, z), so only the 16 bottom
   * slots change. Inside the current column the slot holds the value of the
   * previous iteration; a slot whose columns are all done holds the biome of
   * the top-layer cell above it; a slot not reached yet keeps its old value.
   */
  function BiomeSlotBefore(b0: seq<int>, cb: seq<Biome>, s: int, x: int, z: int, y: int): int
    requires 0 <= s < |b0| && |cb| >= BIOME_COUNT && Cursor(x, z, y)
  {
    if s >= 16 then b0[s]
    else if x / 4 == s % 4 && z / 4 == s / 4 && y > 0 then cb[BiomeIndex(x, y - 1, z)].id
    else if 4 * (s % 4) < x || (x / 4 == s % 4 && 4 * (s / 4) < z) then cb[TopCell(s)].id
    else b0[s]
  }

  function BiomesBefore(b0: seq<int>, cb: seq<Biome>, x: int, z: int, y: int): (r: seq<int>)
    requires |cb| >= BIOME_COUNT && Cursor(x, z, y)
    ensures |r| == |b0|
  {
    seq(|b0|, s requires 0 <= s < |b0| => BiomeSlotBefore(b0, cb, s, x, z, y))
  }

  /**
   * The biome array after save: the 16 bottom slots hold the ids of the
   * top-layer cells above them (the last write to each comes from y = 255);
   * every other slot is unchanged.
   */
  function SavedBiomes(b0: seq<int>, cb: seq<Biome>): (r: seq<int>)
    requires |cb| >= BIOME_COUNT
    ensures |r| == |b0|
  {
    seq(|b0|, s requires 0 <= s < |b0| => if s < 16 then cb[TopCell(s)].id else b0[s])
  }

  /** The document save produces from the document it was given. */
  function SaveDocument(doc: Document, blocks: map<BlockPos, Block>, cb: seq<Biome>): Document
    requires |cb| >= BIOME_COUNT
  {
    Document(Full, doc.blockStates + EncodedBefore(blocks, CHUNK_SIZE_X, 0, 0), SavedBiomes(doc.biomes, cb),
             RecordsBefore(blocks, CHUNK_SIZE_X, 0, 0), doc.sections)
  }

  /** Inside the chunk a bottom-layer slot is written exactly by the coordinates of its column of cells. */
  lemma BottomSlotOf(x: int, z: int, s: int)
    requires 0 <= x < CHUNK_SIZE_X && 0 <= z < CHUNK_SIZE_Z && 0 <= s < 16
    ensures s == BiomeIndex(x, 0, z) <==> (x / 4 == s % 4 && z / 4 == s / 4)
    ensures x / 4 == s % 4 && z / 4 == s / 4 ==> BiomeIndex(x, CHUNK_HEIGHT - 1, z) == TopCell(s)
  {
    BottomLayerIndex(x, z);
  }

  lemma BiomesStep(b0: seq<int>, cb: seq<Biome>, x: int, z: int, y: int)
    requires InExtent(BlockPos(x, y, z)) && |cb| >= BIOME_COUNT
    ensures BiomesBefore(b0, cb, x, z, y + 1) ==
      SetSlot(BiomesBefore(b0, cb, x, z, y), BiomeIndex(x, 0, z), cb[BiomeIndex(x, y, z)].id)
  {
    var before, after := BiomesBefore(b0, cb, x, z, y), BiomesBefore(b0, cb, x, z, y + 1);
    var written := SetSlot(before, BiomeIndex(x, 0, z), cb[BiomeIndex(x, y, z)].id);
    BottomLayerIndex(x, z);
    forall s | 0 <= s < |b0| ensures after[s] == written[s] {
      if s < 16 {
        BottomSlotOf(x, z, s);
      }
    }
  }

  lemma BiomesNextColumn(b0: seq<int>, cb: seq<Biome>, x: int, z: int)
    requires 0 <= x < CHUNK_SIZE_X && 0 <= z < CHUNK_SIZE_Z && |cb| >= BIOME_COUNT
    ensures BiomesBefore(b0, cb, x, z, CHUNK_HEIGHT) == BiomesBefore(b0, cb, x, z + 1, 0)
  {
    var before, after := BiomesBefore(b0, cb, x, z, CHUNK_HEIGHT), BiomesBefore(b0, cb, x, z + 1, 0);
    forall s | 0 <= s < |b0| ensures before[s] == after[s] {
      if s < 16 {
        BottomSlotOf(x, z, s);
      }
    }
  }

  lemma BiomesNextRow(b0: seq<int>, cb: seq<Biome>, x: int)
    requires 0 <= x < CHUNK_SIZE_X && |cb| >= BIOME_COUNT
    ensures BiomesBefore(b0, cb, x, CHUNK_SIZE_Z, 0) == BiomesBefore(b0, cb, x + 1, 0, 0)
  {
    var before, after := BiomesBefore(b0, cb, x, CHUNK_SIZE_Z, 0), BiomesBefore(b0, cb, x + 1, 0, 0);
    forall s | 0 <= s < |b0| ensures before[s] == after[s] {
    }
  }

  /** What the save loops have left at p in m once they stand at the cursor (x, z, y), starting from states. */
  predicate StatesAt(m: map<BlockPos, BlockState>, states: map<BlockPos, BlockState>, blocks: map<BlockPos, Block>,
                     x: int, z: int, y: int, p: BlockPos)
  {
    if InExtent(p) && VisitedBefore(p, x, z, y) then p in m && m[p] == EncodeBlock(BlockAt(blocks, p))
    else (p in m <==> p in states) && (p in m ==> m[p] == states[p])
  }

  lemma {:induction false} StatesBeforeAt(states: map<BlockPos, BlockState>, blocks: map<BlockPos, Block>, x: int, z: int, y: int, p: BlockPos)
    requires Cursor(x, z, y)
    ensures StatesAt(StatesBefore(states, blocks, x, z, y), states, blocks, x, z, y, p)
    decreases x, z, y
  {
    if y > 0 {
      StatesBeforeAt(states, blocks, x, z, y - 1, p);
    } else if z > 0 {
      StatesBeforeAt(states, blocks, x, z - 1, CHUNK_HEIGHT, p);
    } else if x > 0 {
      StatesBeforeAt(states, blocks, x - 1, CHUNK_SIZE_Z, 0, p);
    }
  }

  /** A map that holds the encoded block at every coordinate of the chunk, and states elsewhere, is their overlay. */
  lemma StatesAtEnd(m: map<BlockPos, BlockState>, states: map<BlockPos, BlockState>, blocks: map<BlockPos, Block>)
    requires forall p :: StatesAt(m, states, blocks, CHUNK_SIZE_X, 0, 0, p)
    ensures m == states + EncodedBefore(blocks, CHUNK_SIZE_X, 0, 0)
  {
    var e := states + EncodedBefore(blocks, CHUNK_SIZE_X, 0, 0);
    forall p ensures p in m <==> p in e ensures p in m ==> m[p] == e[p] {
      assert StatesAt(m, states, blocks, CHUNK_SIZE_X, 0, 0, p);
      ExtentMembership(p);
    }
  }

  /** The save loops write the block states of the whole chunk over the old ones. */
  lemma StatesBeforeClosedForm(states: map<BlockPos, BlockState>, blocks: map<BlockPos, Block>)
    ensures StatesBefore(states, blocks, CHUNK_SIZE_X, 0, 0) == states + EncodedBefore(blocks, CHUNK_SIZE_X, 0, 0)
  {
    var m := StatesBefore(states, blocks, CHUNK_SIZE_X, 0, 0);
    assert Cursor(CHUNK_SIZE_X, 0, 0);
    forall p ensures StatesAt(m, states, blocks, CHUNK_SIZE_X, 0, 0, p) {
      StatesBeforeAt(states, blocks, CHUNK_SIZE_X, 0, 0, p);
    }
    StatesAtEnd(m, states, blocks);
  }

  /** Running the save loops up to a cursor leaves the biome slots of the closed form. */
  lemma {:induction false} SlotsBeforeClosedForm(b0: seq<int>, cb: seq<Biome>, x: int, z: int, y: int)
    requires Cursor(x, z, y) && |cb| >= BIOME_COUNT
    ensures SlotsBefore(b0, cb, x, z, y) == BiomesBefore(b0, cb, x, z, y)
    decreases x, z, y
  {
    if y > 0 {
      SlotsBeforeClosedForm(b0, cb, x, z, y - 1);
      BiomesStep(b0, cb, x, z, y - 1);
    } else if z > 0 {
      SlotsBeforeClosedForm(b0, cb, x, z - 1, CHUNK_HEIGHT);
      BiomesNextColumn(b0, cb, x, z - 1);
    } else if x > 0 {
      SlotsBeforeClosedForm(b0, cb, x - 1, CHUNK_SIZE_Z, 0);
      BiomesNextRow(b0, cb, x - 1);
    } else {
      BiomesNone(b0, cb);
    }
  }

  lemma BiomesNone(b0: seq<int>, cb: seq<Biome>)
    requires |cb| >= BIOME_COUNT
    ensures BiomesBefore(b0, cb, 0, 0, 0) == b0
  {
    var r := BiomesBefore(b0, cb, 0, 0, 0);
    forall s | 0 <= s < |b0| ensures r[s] == b0[s] {
    }
  }

  lemma BiomesDone(b0: seq<int>, cb: seq<Biome>)
    requires |cb| >= BIOME_COUNT
    ensures BiomesBefore(b0, cb, CHUNK_SIZE_X, 0, 0) == SavedBiomes(b0, cb)
  {
  }

  // ------------------------------------------------ the saved records

  /** r is the record save writes for the block at the position r names. */
  predicate StampedFrom(blocks: map<BlockPos, Block>, r: Compound) {
    TaggedPos(r).Some? &&
    var p := TaggedPos(r).value;
    InExtent(p) && BlockAt(blocks, p).handler.Some? &&
    r == StampRecord(BlockAt(blocks, p), BlockAt(blocks, p).handler.value, p)
  }

  /** r1 names a position the save loops visit before the one r2 names. */
  predicate SavedEarlier(r1: Compound, r2: Compound) {
    TaggedPos(r1).Some? && TaggedPos(r2).Some? &&
    var q := TaggedPos(r2).value;
    VisitedBefore(TaggedPos(r1).value, q.x, q.z, q.y)
  }

  /** The record save writes for the block at p, if that block carries a handler. */
  predicate Stamps(blocks: map<BlockPos, Block>, p: BlockPos, rs: seq<Compound>) {
    BlockAt(blocks, p).handler.Some? ==> StampRecord(BlockAt(blocks, p), BlockAt(blocks, p).handler.value, p) in rs
  }

  /** r is a record save writes for a coordinate visited before the cursor (x, z, y). */
  predicate StampedBefore(blocks: map<BlockPos, Block>, r: Compound, x: int, z: int, y: int) {
    StampedFrom(blocks, r) && VisitedBefore(TaggedPos(r).value, x, z, y)
  }

  /**
   * rs holds exactly the records of the coordinates visited before the cursor
   * whose block carries a handler, one each, in visiting order.
   */
  ghost predicate RecordsShape(blocks: map<BlockPos, Block>, rs: seq<Compound>, x: int, z: int, y: int) {
    (forall i :: 0 <= i < |rs| ==> StampedBefore(blocks, rs[i], x, z, y)) &&
    (forall i, j :: 0 <= i < j < |rs| ==> SavedEarlier(rs[i], rs[j])) &&
    (forall p :: InExtent(p) && VisitedBefore(p, x, z, y) ==> Stamps(blocks, p, rs))
  }

  /** The innermost loop body appends the record of the coordinate it visits, if any. */
  lemma RecordsStepShape(blocks: map<BlockPos, Block>, prev: seq<Compound>, x: int, z: int, y: int)
    requires InExtent(BlockPos(x, y, z)) && RecordsShape(blocks, prev, x, z, y)
    ensures RecordsShape(blocks, prev + RecordAt(blocks, BlockPos(x, y, z)), x, z, y + 1)
  {
    var p := BlockPos(x, y, z);
    var rs := prev + RecordAt(blocks, p);
    forall i | 0 <= i < |rs| ensures StampedBefore(blocks, rs[i], x, z, y + 1) {
      if i < |prev| {
        assert rs[i] == prev[i];
        assert StampedBefore(blocks, prev[i], x, z, y);
      } else {
        assert rs[i] == StampRecord(BlockAt(blocks, p), BlockAt(blocks, p).handler.value, p);
      }
    }
    forall i, j | 0 <= i < j < |rs| ensures SavedEarlier(rs[i], rs[j]) {
      assert rs[i] == prev[i];
      assert StampedBefore(blocks, prev[i], x, z, y);
      if j < |prev| {
        assert rs[j] == prev[j];
      } else {
        assert rs[j] == StampRecord(BlockAt(blocks, p), BlockAt(blocks, p).handler.value, p);
      }
    }
    forall q | InExtent(q) && VisitedBefore(q, x, z, y + 1) ensures Stamps(blocks, q, rs) {
      if q != p {
        assert VisitedBefore(q, x, z, y);
        assert Stamps(blocks, q, prev);
      }
    }
  }

  /** Moving the cursor to the next column or row of the chunk visits nothing new. */
  lemma RecordsRolloverShape(blocks: map<BlockPos, Block>, rs: seq<Compound>, x: int, z: int, x': int, z': int)
    requires 0 <= x < CHUNK_SIZE_X && 0 <= z <= CHUNK_SIZE_Z
    requires (z < CHUNK_SIZE_Z && x' == x && z' == z + 1) || (z == CHUNK_SIZE_Z && x' == x + 1 && z' == 0)
    requires RecordsShape(blocks, rs, x, z, if z < CHUNK_SIZE_Z then CHUNK_HEIGHT else 0)
    ensures RecordsShape(blocks, rs, x', z', 0)
  {
    var y := if z < CHUNK_SIZE_Z then CHUNK_HEIGHT else 0;
    forall i | 0 <= i < |rs| ensures StampedBefore(blocks, rs[i], x', z', 0) {
      assert StampedBefore(blocks, rs[i], x, z, y);
      var q := TaggedPos(rs[i]).value;
      assert InExtent(q);
    }
  }

  /** The records built up to a cursor have the shape RecordsShape describes. */
  lemma {:induction false} RecordsBeforeShape(blocks: map<BlockPos, Block>, x: int, z: int, y: int)
    requires Cursor(x, z, y)
    ensures RecordsShape(blocks, RecordsBefore(blocks, x, z, y), x, z, y)
    decreases x, z, y
  {
    if y > 0 {
      RecordsBeforeShape(blocks, x, z, y - 1);
      RecordsStepShape(blocks, RecordsBefore(blocks, x, z, y - 1), x, z, y - 1);
    } else if z > 0 {
      RecordsBeforeShape(blocks, x, z - 1, CHUNK_HEIGHT);
      RecordsRolloverShape(blocks, RecordsBefore(blocks, x, z - 1, CHUNK_HEIGHT), x, z - 1, x, z);
    } else if x > 0 {
      RecordsBeforeShape(blocks, x - 1, CHUNK_SIZE_Z, 0);
      RecordsRolloverShape(blocks, RecordsBefore(blocks, x - 1, CHUNK_SIZE_Z, 0), x - 1, CHUNK_SIZE_Z, x, 0);
    }
  }

  /**
   * The records save writes: one for each coordinate of the chunk whose block
   * carries a handler, naming that coordinate, in x-then-z-then-y order.
   */
  lemma SavedRecords(blocks: map<BlockPos, Block>)
    ensures var rs := RecordsBefore(blocks, CHUNK_SIZE_X, 0, 0);
      (forall i :: 0 <= i < |rs| ==> StampedFrom(blocks, rs[i])) &&
      (forall i, j :: 0 <= i < j < |rs| ==> SavedEarlier(rs[i], rs[j])) &&
      (forall p :: InExtent(p) ==> Stamps(blocks, p, rs))
  {
    RecordsBeforeShape(blocks, CHUNK_SIZE_X, 0, 0);
  }

  /**
   * Loading a saved record: it is valid exactly when the handler's id is
   * registered, and then it re-places the handler at its coordinate with the
   * block's data minus the reserved tags.
   */
  lemma ParseStampedRecord(b: Block, h: BlockHandler, p: BlockPos, handlers: map<string, BlockHandler>)
    ensures ParseTileEntity(StampRecord(b, h, p), handlers) ==
      if h.namespaceId in handlers then Some(TileEntityPlacement(p, handlers[h.namespaceId], NbtOf(b) - RESERVED_TAGS))
      else None
  {
    var r := StampRecord(b, h, p);
    assert GetString(r, "id") == Some(h.namespaceId);
    assert TaggedPos(r) == Some(p);
  }

  /**
   * Stripping the reserved tags from a saved record gives the block's data
   * minus those tags, and exactly the block's data when it had none of them.
   */
  lemma StampedTagsRoundTrip(b: Block, h: BlockHandler, p: BlockPos)
    ensures StampRecord(b, h, p) - RESERVED_TAGS == NbtOf(b) - RESERVED_TAGS
    ensures NbtOf(b).Keys !! RESERVED_TAGS ==> StampRecord(b, h, p) - RESERVED_TAGS == NbtOf(b)
  {
    if NbtOf(b).Keys !! RESERVED_TAGS {
      assert NbtOf(b) - RESERVED_TAGS == NbtOf(b);
    }
  }

  // ------------------------------------------------ document properties

  /** What save leaves at one coordinate's block state. */
  lemma SavedStateAt(doc: Document, blocks: map<BlockPos, Block>, cb: seq<Biome>, p: BlockPos)
    requires |cb| >= BIOME_COUNT
    ensures var states := SaveDocument(doc, blocks, cb).blockStates;
      if InExtent(p) then p in states && states[p] == EncodeBlock(BlockAt(blocks, p))
      else (p in states <==> p in doc.blockStates) && (p in states ==> states[p] == doc.blockStates[p])
  {
    ExtentMembership(p);
  }

  /** Saving a chunk twice into the same document gives what saving once gives. */
  lemma SaveDocumentIdempotent(doc: Document, blocks: map<BlockPos, Block>, cb: seq<Biome>)
    requires |cb| >= BIOME_COUNT
    ensures SaveDocument(SaveDocument(doc, blocks, cb), blocks, cb) == SaveDocument(doc, blocks, cb)
  {
    var once := SaveDocument(doc, blocks, cb);
    var e := EncodedBefore(blocks, CHUNK_SIZE_X, 0, 0);
    assert once.blockStates + e == once.blockStates;
    assert SavedBiomes(once.biomes, cb) == once.biomes;
  }

  // ---------------------------------------------------------- the method

  /** The body of the save loops for one coordinate; returns the record to append, if any. */
  method SaveBlockAt(chunk: Chunk, chunkColumn: ChunkColumn, x: int, y: int, z: int) returns (records: seq<Compound>)
    requires InExtent(BlockPos(x, y, z)) && |chunk.biomes| >= BIOME_COUNT
    modifies chunkColumn
    ensures chunkColumn.blockStates == old(chunkColumn.blockStates)[BlockPos(x, y, z) := EncodeBlock(chunk.GetBlock(BlockPos(x, y, z)))]
    ensures chunkColumn.biomes == WriteBiome(old(chunkColumn.biomes), chunk.biomes, x, y, z)
    ensures chunkColumn.status == old(chunkColumn.status) && chunkColumn.tileEntities == old(chunkColumn.tileEntities)
    ensures chunkColumn.sections == old(chunkColumn.sections)
    ensures records == RecordAt(chunk.blocks, BlockPos(x, y, z))
  {
    var block := chunk.GetBlock(BlockPos(x, y, z));

    // Block
    var state := BlockState(block.name, block.properties);
    chunkColumn.SetBlockState(BlockPos(x, y, z), state);

    // Biome
    var index := BiomeIndex(x, y, z);
    var biome := chunk.biomes[index];
    chunkColumn.SetBiome(x, 0, z, biome.id);

    // Tile entity: the tags are set one by one as the Java does; the ensures
    // ties the result to the record StampRecord describes.
    records := [];
    if block.handler.Some? {
      var handler := block.handler.value;
      var nbt := NbtOf(block);
      nbt := nbt["id" := TagString(handler.namespaceId)];
      nbt := nbt["x" := TagInt(x)];
      nbt := nbt["y" := TagInt(y)];
      nbt := nbt["z" := TagInt(z)];
      nbt := nbt["keepPacked" := TagByte(0)];
      records := [nbt];
    }
  }

  /**
   * save: status Full, a block state for every coordinate, the biome slots
   * of SavedBiomes, and a fresh tile-entity list replacing the old one.
   */
  method Save(chunk: Chunk, chunkColumn: ChunkColumn)
    requires |chunk.biomes| >= BIOME_COUNT
    modifies chunkColumn
    ensures chunkColumn.Snapshot() == SaveDocument(old(chunkColumn.Snapshot()), chunk.blocks, chunk.biomes)
  {
    var tileEntities: seq<Compound> := [];
    chunkColumn.SetGenerationStatus(Full);
    ghost var states, ids := chunkColumn.blockStates, chunkColumn.biomes;
    ghost var blocks, cb := chunk.blocks, chunk.biomes;
    var x := 0;
    while x < CHUNK_SIZE_X
      invariant 0 <= x <= CHUNK_SIZE_X
      invariant chunkColumn.blockStates == StatesBefore(states, blocks, x, 0, 0)
      invariant chunkColumn.biomes == SlotsBefore(ids, cb, x, 0, 0)
      invariant tileEntities == RecordsBefore(blocks, x, 0, 0)
      invariant chunkColumn.status == Full && chunkColumn.tileEntities == old(chunkColumn.tileEntities)
      invariant chunkColumn.sections == old(chunkColumn.sections)
    {
      var z := 0;
      while z < CHUNK_SIZE_Z
        invariant 0 <= z <= CHUNK_SIZE_Z
        invariant chunkColumn.blockStates == StatesBefore(states, blocks, x, z, 0)
        invariant chunkColumn.biomes == SlotsBefore(ids, cb, x, z, 0)
        invariant tileEntities == RecordsBefore(blocks, x, z, 0)
        invariant chunkColumn.status == Full && chunkColumn.tileEntities == old(chunkColumn.tileEntities)
        invariant chunkColumn.sections == old(chunkColumn.sections)
      {
        var y := 0;
        while y < CHUNK_HEIGHT
          invariant 0 <= y <= CHUNK_HEIGHT
          invariant chunkColumn.blockStates == StatesBefore(states, blocks, x, z, y)
          invariant chunkColumn.biomes == SlotsBefore(ids, cb, x, z, y)
          invariant tileEntities == RecordsBefore(blocks, x, z, y)
          invariant chunkColumn.status == Full && chunkColumn.tileEntities == old(chunkColumn.tileEntities)
          invariant chunkColumn.sections == old(chunkColumn.sections)
        {
          var records := SaveBlockAt(chunk, chunkColumn, x, y, z);
          tileEntities := tileEntities + records;
          y := y + 1;
        }
        z := z + 1;
      }
      x := x + 1;
    }
    chunkColumn.SetTileEntities(tileEntities);
    StatesBeforeClosedForm(states, blocks);
    SlotsBeforeClosedForm(ids, cb, x, 0, 0);
    BiomesDone(ids, cb);
  }
}
