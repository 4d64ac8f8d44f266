// The load path: biome, block, tile-entity and light decoding of a chunk
// document into an in-memory chunk.
module AnvilDecoder {
  import opened AnvilTypes
  import opened InMemoryChunk
  import opened AnvilRegion

  // ------------------------------------------------------------- biomes

  /** `compareTo(Biomes) > 0`: the document was generated past the biome stage. */
  predicate HasBiomes(status: GenerationStatus) {
    Ordinal(status) > Ordinal(Biomes)
  }

  /** The biome array the load path builds, as a value. */
  function DecodedBiomes(status: GenerationStatus, ids: seq<int>, registry: map<int, Biome>): seq<Biome> {
    if HasBiomes(status) then seq(|ids|, i requires 0 <= i < |ids| => BiomeOrPlains(registry, ids[i]))
    else seq(BIOME_COUNT, _ => PLAINS)
  }

  /**
   * Builds the chunk's biome array: past the biome stage each stored id is
   * resolved, falling back to plains; otherwise (Biomes itself included) the
   * array is 1024 plains.
   */
  method DecodeBiomes(status: GenerationStatus, ids: seq<int>, registry: map<int, Biome>) returns (biomes: seq<Biome>)
    ensures HasBiomes(status) ==> (|biomes| == |ids| &&
      forall i :: 0 <= i < |ids| ==> biomes[i] == (if ids[i] in registry then registry[ids[i]] else PLAINS))
    ensures !HasBiomes(status) ==> |biomes| == BIOME_COUNT && forall i :: 0 <= i < BIOME_COUNT ==> biomes[i] == PLAINS
    ensures biomes == DecodedBiomes(status, ids, registry)
  {
    var a: array<Biome>;
    if Ordinal(status) > Ordinal(Biomes) {
      a := new Biome[|ids|];
      var i := 0;
      while i < |ids|
        invariant 0 <= i <= |ids| == a.Length
        invariant forall k :: 0 <= k < i ==> a[k] == BiomeOrPlains(registry, ids[k])
      {
        a[i] := BiomeOrPlains(registry, ids[i]);
        i := i + 1;
      }
    } else {
      a := new Biome[BIOME_COUNT];
      var i := 0;
      while i < a.Length
        invariant 0 <= i <= a.Length == BIOME_COUNT
        invariant forall k :: 0 <= k < i ==> a[k] == PLAINS
      {
        a[i] := PLAINS;
        i := i + 1;
      }
    }
    biomes := a[..];
  }

  // ------------------------------------------------------------- blocks

  /**
   * The block one persisted state decodes to: None when the name does not
   * resolve or withProperties throws; the registered block when the property
   * map is empty; the block with the properties applied otherwise.
   */
  function DecodeBlockState(state: BlockState, reg: Registries): Option<Block> {
    if state.name !in reg.blocks then None
    else if state.properties == map[] then Some(reg.blocks[state.name])
    else reg.withProperties(reg.blocks[state.name], state.properties)
  }

  /** The coordinates placed once the block loops stand at the cursor (x, z, y), with their blocks. */
  function DecodedBlocksBefore(states: map<BlockPos, BlockState>, reg: Registries, x: int, z: int, y: int): map<BlockPos, Block> {
    map p | p in states && InExtent(p) && VisitedBefore(p, x, z, y) && DecodeBlockState(states[p], reg).Some?
      :: DecodeBlockState(states[p], reg).value
  }

  /** Every block the block loops place. */
  function DecodedBlocks(states: map<BlockPos, BlockState>, reg: Registries): map<BlockPos, Block> {
    DecodedBlocksBefore(states, reg, CHUNK_SIZE_X, 0, 0)
  }

  /**
   * What decoding the block states does to one coordinate: outside the
   * 16x256x16 extent, or where the state is unreadable or undecodable, the
   * chunk keeps what it had; elsewhere it gets the decoded block.
   */
  lemma DecodedBlockAt(base: map<BlockPos, Block>, states: map<BlockPos, BlockState>, reg: Registries, p: BlockPos)
    ensures var r := base + DecodedBlocks(states, reg);
      if InExtent(p) && p in states && DecodeBlockState(states[p], reg).Some? then
        p in r && r[p] == DecodeBlockState(states[p], reg).value
      else
        (p in r <==> p in base) && (p in base ==> r[p] == base[p])
  {
  }

  lemma DecodedBlocksStep(base: map<BlockPos, Block>, states: map<BlockPos, BlockState>, reg: Registries, x: int, z: int, y: int)
    requires InExtent(BlockPos(x, y, z))
    ensures base + DecodedBlocksBefore(states, reg, x, z, y + 1) ==
      PlaceDecoded(base + DecodedBlocksBefore(states, reg, x, z, y), states, reg, BlockPos(x, y, z))
  {
    var p := BlockPos(x, y, z);
    var d0, d1 := DecodedBlocksBefore(states, reg, x, z, y), DecodedBlocksBefore(states, reg, x, z, y + 1);
    forall q | InExtent(q)
      ensures VisitedBefore(q, x, z, y + 1) <==> VisitedBefore(q, x, z, y) || q == p
    {
    }
    if p in states && DecodeBlockState(states[p], reg).Some? {
      var v := DecodeBlockState(states[p], reg).value;
      assert d1 == d0[p := v];
      assert base + d0[p := v] == (base + d0)[p := v];
    } else {
      assert d1 == d0;
    }
  }

  lemma DecodedBlocksNextColumn(states: map<BlockPos, BlockState>, reg: Registries, x: int, z: int)
    ensures DecodedBlocksBefore(states, reg, x, z, CHUNK_HEIGHT) == DecodedBlocksBefore(states, reg, x, z + 1, 0)
    ensures DecodedBlocksBefore(states, reg, x, CHUNK_SIZE_Z, 0) == DecodedBlocksBefore(states, reg, x + 1, 0, 0)
  {
  }

  /** One iteration of the block loops: the coordinate's decoded block, if any, is placed. */
  function PlaceDecoded(blocks: map<BlockPos, Block>, states: map<BlockPos, BlockState>, reg: Registries, p: BlockPos): map<BlockPos, Block> {
    if p in states && DecodeBlockState(states[p], reg).Some? then blocks[p := DecodeBlockState(states[p], reg).value]
    else blocks
  }

  /** The blocks after the loops have run, iteration by iteration, up to the cursor (x, z, y). */
  function LoadedBefore(base: map<BlockPos, Block>, states: map<BlockPos, BlockState>, reg: Registries, x: int, z: int, y: int): map<BlockPos, Block>
    requires Cursor(x, z, y)
    decreases x, z, y
  {
    if y > 0 then PlaceDecoded(LoadedBefore(base, states, reg, x, z, y - 1), states, reg, BlockPos(x, y - 1, z))
    else if z > 0 then LoadedBefore(base, states, reg, x, z - 1, CHUNK_HEIGHT)
    else if x > 0 then LoadedBefore(base, states, reg, x - 1, CHUNK_SIZE_Z, 0)
    else base
  }

  /** Running the loops up to a cursor overlays the blocks decoded so far on the chunk's blocks. */
  lemma {:induction false} LoadedBeforeOverlay(base: map<BlockPos, Block>, states: map<BlockPos, BlockState>, reg: Registries, x: int, z: int, y: int)
    requires Cursor(x, z, y)
    ensures LoadedBefore(base, states, reg, x, z, y) == base + DecodedBlocksBefore(states, reg, x, z, y)
    decreases x, z, y
  {
    if y > 0 {
      LoadedBeforeOverlay(base, states, reg, x, z, y - 1);
      DecodedBlocksStep(base, states, reg, x, z, y - 1);
    } else if z > 0 {
      LoadedBeforeOverlay(base, states, reg, x, z - 1, CHUNK_HEIGHT);
      DecodedBlocksNextColumn(states, reg, x, z - 1);
    } else if x > 0 {
      LoadedBeforeOverlay(base, states, reg, x - 1, CHUNK_SIZE_Z, 0);
      DecodedBlocksNextColumn(states, reg, x - 1, CHUNK_SIZE_Z);
    } else {
      DecodedNone(states, reg);
    }
  }

  lemma DecodedNone(states: map<BlockPos, BlockState>, reg: Registries)
    ensures DecodedBlocksBefore(states, reg, 0, 0, 0) == map[]
  {
  }

  /** The body of the block loops for one coordinate (the try block of loadBlocks). */
  method LoadBlockAt(chunk: Chunk, states: map<BlockPos, BlockState>, reg: Registries, p: BlockPos)
    modifies chunk
    ensures chunk.blocks == PlaceDecoded(old(chunk.blocks), states, reg, p)
    ensures chunk.biomes == old(chunk.biomes) && chunk.sections == old(chunk.sections)
  {
    // a coordinate whose state cannot be read is skipped
    if p in states {
      var state := states[p];
      if state.name in reg.blocks {
        var block: Option<Block> := Some(reg.blocks[state.name]);
        if state.properties != map[] {
          block := reg.withProperties(block.value, state.properties);
        }
        // None: withProperties threw and the coordinate is skipped
        if block.Some? {
          chunk.SetBlock(p, block.value);
        }
      }
    }
  }

  /** loadBlocks: places the decoded block of every coordinate of the extent. */
  method LoadBlocks(chunk: Chunk, fileChunk: ChunkColumn, reg: Registries)
    modifies chunk
    ensures chunk.blocks == old(chunk.blocks) + DecodedBlocks(fileChunk.blockStates, reg)
    ensures chunk.biomes == old(chunk.biomes) && chunk.sections == old(chunk.sections)
  {
    ghost var base := chunk.blocks;
    var states := fileChunk.blockStates;
    var x := 0;
    while x < CHUNK_SIZE_X
      invariant 0 <= x <= CHUNK_SIZE_X
      invariant chunk.blocks == LoadedBefore(base, states, reg, x, 0, 0)
      invariant chunk.biomes == old(chunk.biomes) && chunk.sections == old(chunk.sections)
    {
      var z := 0;
      while z < CHUNK_SIZE_Z
        invariant 0 <= z <= CHUNK_SIZE_Z
        invariant chunk.blocks == LoadedBefore(base, states, reg, x, z, 0)
        invariant chunk.biomes == old(chunk.biomes) && chunk.sections == old(chunk.sections)
      {
        var y := 0;
        while y < CHUNK_HEIGHT
          invariant 0 <= y <= CHUNK_HEIGHT
          invariant chunk.blocks == LoadedBefore(base, states, reg, x, z, y)
          invariant chunk.biomes == old(chunk.biomes) && chunk.sections == old(chunk.sections)
        {
          LoadBlockAt(chunk, states, reg, BlockPos(x, y, z));
          y := y + 1;
        }
        z := z + 1;
      }
      x := x + 1;
    }
    LoadedBeforeOverlay(base, states, reg, x, 0, 0);
  }

  // ------------------------------------------------------- tile entities

  /** Where and with what a valid tile-entity record re-places a block. */
  datatype TileEntityPlacement = TileEntityPlacement(pos: BlockPos, handler: BlockHandler, nbt: Compound)

  /**
   * The validity checks of a tile-entity record: a string id, int x, y and z,
   * and a handler registered for the id. A valid record yields its position,
   * its handler and the record without the reserved tags.
   */
  function ParseTileEntity(te: Compound, handlers: map<string, BlockHandler>): (r: Option<TileEntityPlacement>)
    ensures r.Some? <==>
      "id" in te && te["id"].TagString? && te["id"].s in handlers &&
      "x" in te && te["x"].TagInt? && "y" in te && te["y"].TagInt? && "z" in te && te["z"].TagInt?
    ensures r.Some? ==> (r.value.pos == BlockPos(te["x"].i, te["y"].i, te["z"].i) &&
      r.value.handler == handlers[te["id"].s] &&
      r.value.nbt.Keys == te.Keys - RESERVED_TAGS &&
      forall k :: k in r.value.nbt ==> r.value.nbt[k] == te[k])
  {
    var id := GetString(te, "id");
    var x, y, z := GetInt(te, "x"), GetInt(te, "y"), GetInt(te, "z");
    if id.None? then None
    else if x.None? || y.None? || z.None? then None
    else if id.value !in handlers then None
    else Some(TileEntityPlacement(BlockPos(x.value, y.value, z.value), handlers[id.value], te - RESERVED_TAGS))
  }

  /**
   * One record applied to the blocks: an invalid record changes nothing; a
   * valid one changes only the block at its position, which keeps its type and
   * properties and gets the record's handler and remaining tags.
   */
  function PlaceTileEntity(blocks: map<BlockPos, Block>, te: Compound, handlers: map<string, BlockHandler>): (r: map<BlockPos, Block>)
    ensures ParseTileEntity(te, handlers).None? ==> r == blocks
    ensures ParseTileEntity(te, handlers).Some? ==>
      var pl := ParseTileEntity(te, handlers).value;
      r.Keys == blocks.Keys + {pl.pos} &&
      (forall q :: q in blocks && q != pl.pos ==> r[q] == blocks[q]) &&
      r[pl.pos].name == BlockAt(blocks, pl.pos).name &&
      r[pl.pos].properties == BlockAt(blocks, pl.pos).properties &&
      r[pl.pos].handler == Some(pl.handler) && r[pl.pos].nbt == Some(te - RESERVED_TAGS)
  {
    match ParseTileEntity(te, handlers)
    case None => blocks
    case Some(pl) => blocks[pl.pos := WithNbt(WithHandler(BlockAt(blocks, pl.pos), pl.handler), pl.nbt)]
  }

  /** The records applied one after the other, in list order. */
  function ApplyTileEntities(blocks: map<BlockPos, Block>, tes: seq<Compound>, handlers: map<string, BlockHandler>): map<BlockPos, Block>
    decreases |tes|
  {
    if tes == [] then blocks
    else PlaceTileEntity(ApplyTileEntities(blocks, tes[..|tes| - 1], handlers), tes[|tes| - 1], handlers)
  }

  /** True when the record is valid and targets p. */
  predicate Targets(te: Compound, handlers: map<string, BlockHandler>, p: BlockPos) {
    ParseTileEntity(te, handlers).Some? && ParseTileEntity(te, handlers).value.pos == p
  }

  /** A coordinate no valid record targets keeps its block (or its absence). */
  lemma {:induction false} TileEntitiesElsewhereUnchanged(blocks: map<BlockPos, Block>, tes: seq<Compound>, handlers: map<string, BlockHandler>, p: BlockPos)
    requires forall i :: 0 <= i < |tes| ==> !Targets(tes[i], handlers, p)
    ensures var r := ApplyTileEntities(blocks, tes, handlers);
      (p in r <==> p in blocks) && (p in blocks ==> r[p] == blocks[p])
    decreases |tes|
  {
    if tes != [] {
      var prefix := tes[..|tes| - 1];
      assert forall i :: 0 <= i < |prefix| ==> prefix[i] == tes[i];
      TileEntitiesElsewhereUnchanged(blocks, prefix, handlers, p);
      assert !Targets(tes[|tes| - 1], handlers, p);
    }
  }

  /**
   * The last valid record targeting a coordinate decides its handler and NBT
   * data; dropped records and records for other coordinates do not interfere.
   */
  lemma {:induction false} TileEntityLastWins(blocks: map<BlockPos, Block>, tes: seq<Compound>, handlers: map<string, BlockHandler>, i: nat)
    requires i < |tes| && ParseTileEntity(tes[i], handlers).Some?
    requires forall j :: i < j < |tes| ==> !Targets(tes[j], handlers, ParseTileEntity(tes[i], handlers).value.pos)
    ensures var pl := ParseTileEntity(tes[i], handlers).value;
      var r := ApplyTileEntities(blocks, tes, handlers);
      pl.pos in r && r[pl.pos].handler == Some(pl.handler) && r[pl.pos].nbt == Some(tes[i] - RESERVED_TAGS)
    decreases |tes|
  {
    var prefix := tes[..|tes| - 1];
    var pl := ParseTileEntity(tes[i], handlers).value;
    if i < |tes| - 1 {
      assert prefix[i] == tes[i];
      assert forall j :: i < j < |prefix| ==> prefix[j] == tes[j];
      TileEntityLastWins(blocks, prefix, handlers, i);
      assert !Targets(tes[|tes| - 1], handlers, pl.pos);
    }
  }

  /**
   * Records only attach handlers and data: no coordinate is lost, and every
   * coordinate keeps its block type and properties.
   */
  lemma {:induction false} TileEntitiesKeepStates(blocks: map<BlockPos, Block>, tes: seq<Compound>, handlers: map<string, BlockHandler>)
    ensures var r := ApplyTileEntities(blocks, tes, handlers);
      blocks.Keys <= r.Keys &&
      forall p :: BlockAt(r, p).name == BlockAt(blocks, p).name && BlockAt(r, p).properties == BlockAt(blocks, p).properties
    decreases |tes|
  {
    if tes != [] {
      TileEntitiesKeepStates(blocks, tes[..|tes| - 1], handlers);
    }
  }

  /** Records that target only coordinates already holding a block add no coordinate. */
  lemma {:induction false} TileEntitiesWithinKeys(blocks: map<BlockPos, Block>, tes: seq<Compound>, handlers: map<string, BlockHandler>)
    requires forall i :: 0 <= i < |tes| && ParseTileEntity(tes[i], handlers).Some? ==> ParseTileEntity(tes[i], handlers).value.pos in blocks
    ensures ApplyTileEntities(blocks, tes, handlers).Keys == blocks.Keys
    decreases |tes|
  {
    if tes != [] {
      var prefix := tes[..|tes| - 1];
      assert forall i :: 0 <= i < |prefix| ==> prefix[i] == tes[i];
      TileEntitiesWithinKeys(blocks, prefix, handlers);
    }
  }

  /** A record after loading: a valid one has lost its reserved tags (removeTag works in place). */
  function StripIfValid(te: Compound, handlers: map<string, BlockHandler>): Compound {
    if ParseTileEntity(te, handlers).Some? then te - RESERVED_TAGS else te
  }

  /** The document's record list after loading. */
  function StripValid(tes: seq<Compound>, handlers: map<string, BlockHandler>): (r: seq<Compound>)
    ensures |r| == |tes|
  {
    seq(|tes|, i requires 0 <= i < |tes| => StripIfValid(tes[i], handlers))
  }

  /** The body of the record loop of loadTileEntities for one record. */
  method LoadTileEntity(chunk: Chunk, te: Compound, handlers: map<string, BlockHandler>) returns (record: Compound)
    modifies chunk
    ensures chunk.blocks == PlaceTileEntity(old(chunk.blocks), te, handlers)
    ensures chunk.biomes == old(chunk.biomes) && chunk.sections == old(chunk.sections)
    ensures record == StripIfValid(te, handlers)
  {
    record := te;
    var id := GetString(te, "id");
    var x, y, z := GetInt(te, "x"), GetInt(te, "y"), GetInt(te, "z");
    if id.None? {
      // invalid namespace: dropped
    } else if x.None? || y.None? || z.None? {
      // invalid coordinate: dropped
    } else if id.value !in handlers {
      // no handler: dropped
    } else {
      var handler := handlers[id.value];
      record := te - RESERVED_TAGS;
      var p := BlockPos(x.value, y.value, z.value);
      var block := WithNbt(WithHandler(chunk.GetBlock(p), handler), record);
      chunk.SetBlock(p, block);
    }
  }

  /** loadTileEntities: re-places the block of every valid record with its handler and data. */
  method LoadTileEntities(chunk: Chunk, fileChunk: ChunkColumn, handlers: map<string, BlockHandler>)
    modifies chunk, fileChunk
    ensures chunk.blocks == ApplyTileEntities(old(chunk.blocks), old(fileChunk.tileEntities), handlers)
    ensures chunk.biomes == old(chunk.biomes) && chunk.sections == old(chunk.sections)
    ensures fileChunk.Snapshot() == old(fileChunk.Snapshot()).(tileEntities := StripValid(old(fileChunk.tileEntities), handlers))
  {
    ghost var base := chunk.blocks;
    ghost var tes0 := fileChunk.tileEntities;
    var i := 0;
    while i < |fileChunk.tileEntities|
      invariant 0 <= i <= |tes0| == |fileChunk.tileEntities|
      invariant forall k :: 0 <= k < i ==> fileChunk.tileEntities[k] == StripIfValid(tes0[k], handlers)
      invariant forall k :: i <= k < |tes0| ==> fileChunk.tileEntities[k] == tes0[k]
      invariant fileChunk.status == old(fileChunk.status) && fileChunk.blockStates == old(fileChunk.blockStates)
      invariant fileChunk.biomes == old(fileChunk.biomes) && fileChunk.sections == old(fileChunk.sections)
      invariant chunk.blocks == ApplyTileEntities(base, tes0[..i], handlers)
      invariant chunk.biomes == old(chunk.biomes) && chunk.sections == old(chunk.sections)
    {
      assert tes0[..i + 1][..i] == tes0[..i];
      var record := LoadTileEntity(chunk, fileChunk.tileEntities[i], handlers);
      fileChunk.tileEntities := fileChunk.tileEntities[i := record];
      i := i + 1;
    }
    assert tes0[..i] == tes0;
    assert fileChunk.tileEntities == StripValid(tes0, handlers);
  }

  // -------------------------------------------------------------- light

  /** The document's sections copied onto the section map, in list order. */
  function ApplyLights(sections: map<int, SectionLight>, docSections: seq<ChunkSection>): map<int, SectionLight>
    decreases |docSections|
  {
    if docSections == [] then sections
    else
      var last := docSections[|docSections| - 1];
      ApplyLights(sections, docSections[..|docSections| - 1])[last.y := SectionLight(last.skyLights, last.blockLights)]
  }

  /** A section the document does not mention keeps its light. */
  lemma {:induction false} LightsElsewhereUnchanged(sections: map<int, SectionLight>, docSections: seq<ChunkSection>, sectionY: int)
    requires forall i :: 0 <= i < |docSections| ==> docSections[i].y != sectionY
    ensures var r := ApplyLights(sections, docSections);
      (sectionY in r <==> sectionY in sections) && (sectionY in sections ==> r[sectionY] == sections[sectionY])
    decreases |docSections|
  {
    if docSections != [] {
      var prefix := docSections[..|docSections| - 1];
      assert forall i :: 0 <= i < |prefix| ==> prefix[i] == docSections[i];
      LightsElsewhereUnchanged(sections, prefix, sectionY);
    }
  }

  /** A section gets the arrays of the last document section with its y, verbatim. */
  lemma {:induction false} LightsCopiedVerbatim(sections: map<int, SectionLight>, docSections: seq<ChunkSection>, i: nat)
    requires i < |docSections|
    requires forall j :: i < j < |docSections| ==> docSections[j].y != docSections[i].y
    ensures var r := ApplyLights(sections, docSections);
      docSections[i].y in r && r[docSections[i].y] == SectionLight(docSections[i].skyLights, docSections[i].blockLights)
    decreases |docSections|
  {
    if i < |docSections| - 1 {
      var prefix := docSections[..|docSections| - 1];
      assert prefix[i] == docSections[i];
      assert forall j :: i < j < |prefix| ==> prefix[j] == docSections[j];
      LightsCopiedVerbatim(sections, prefix, i);
    }
  }

  /** The light loop of loadMCA: copies every document section's arrays onto the chunk. */
  method LoadLights(chunk: Chunk, fileChunk: ChunkColumn)
    modifies chunk
    ensures chunk.sections == ApplyLights(old(chunk.sections), fileChunk.sections)
    ensures chunk.blocks == old(chunk.blocks) && chunk.biomes == old(chunk.biomes)
  {
    var chunkSections := fileChunk.sections;
    var i := 0;
    while i < |chunkSections|
      invariant 0 <= i <= |chunkSections|
      invariant chunk.sections == ApplyLights(old(chunk.sections), chunkSections[..i])
      invariant chunk.blocks == old(chunk.blocks) && chunk.biomes == old(chunk.biomes)
    {
      var chunkSection := chunkSections[i];
      assert chunkSections[..i + 1][..i] == chunkSections[..i];
      chunk.SetSkyLight(chunkSection.y, chunkSection.skyLights);
      chunk.SetBlockLight(chunkSection.y, chunkSection.blockLights);
      i := i + 1;
    }
    assert chunkSections[..i] == chunkSections;
  }
}
