// Reading back what save wrote: the block and biome content a chunk loaded
// from a saved document has.
module AnvilRoundTrip {
  import opened AnvilTypes
  import opened InMemoryChunk
  import opened AnvilRegion
  import opened AnvilDecoder
  import opened AnvilEncoder

  /** A block without handler and NBT data, as the block registry hands it out. */
  function Plain(b: Block): Block {
    b.(handler := None, nbt := None)
  }

  /**
   * What loading gives back for a saved block: a block with a handler keeps
   * the handler and its data minus the reserved tags (an empty compound when
   * it had none); a block without one loses its data.
   */
  function Reloaded(b: Block): Block {
    if b.handler.Some? then b.(nbt := Some(NbtOf(b) - RESERVED_TAGS)) else Plain(b)
  }

  /**
   * A block comes back unchanged exactly when it has a handler and data
   * without reserved tags, or neither handler nor data.
   */
  lemma ReloadedUnchanged(b: Block)
    ensures Reloaded(b) == b <==>
      if b.handler.Some? then b.nbt.Some? && b.nbt.value.Keys !! RESERVED_TAGS else b.nbt.None?
  {
    if b.handler.Some? && b.nbt.Some? {
      if b.nbt.value.Keys !! RESERVED_TAGS {
        assert b.nbt.value - RESERVED_TAGS == b.nbt.value;
      } else {
        var k :| k in b.nbt.value.Keys && k in RESERVED_TAGS;
        assert k !in (b.nbt.value - RESERVED_TAGS);
      }
    }
  }

  /**
   * The registries resolve the state saved for b back to b's type and
   * properties, and b's handler id back to b's handler.
   */
  predicate RegistryKnows(reg: Registries, b: Block) {
    DecodeBlockState(EncodeBlock(b), reg) == Some(Plain(b)) &&
    (b.handler.Some? ==> b.handler.value.namespaceId in reg.handlers && reg.handlers[b.handler.value.namespaceId] == b.handler.value)
  }

  /** Every saved record names a coordinate of the chunk whose block has a handler, and a valid one targets it. */
  lemma SavedRecordTarget(blocks: map<BlockPos, Block>, handlers: map<string, BlockHandler>, i: int)
    requires 0 <= i < |RecordsBefore(blocks, CHUNK_SIZE_X, 0, 0)|
    ensures var r := RecordsBefore(blocks, CHUNK_SIZE_X, 0, 0)[i];
      TaggedPos(r).Some? && InExtent(TaggedPos(r).value) && BlockAt(blocks, TaggedPos(r).value).handler.Some? &&
      (ParseTileEntity(r, handlers).Some? ==> ParseTileEntity(r, handlers).value.pos == TaggedPos(r).value)
  {
    var rs := RecordsBefore(blocks, CHUNK_SIZE_X, 0, 0);
    SavedRecords(blocks);
    assert StampedFrom(blocks, rs[i]);
    var q := TaggedPos(rs[i]).value;
    ParseStampedRecord(BlockAt(blocks, q), BlockAt(blocks, q).handler.value, q, handlers);
  }

  /** Decoding the saved states gives the plain block at every coordinate of the chunk and nothing else. */
  lemma DecodeSavedStates(doc: Document, blocks: map<BlockPos, Block>, cb: seq<Biome>, reg: Registries)
    requires |cb| >= BIOME_COUNT
    requires forall p :: InExtent(p) ==> RegistryKnows(reg, BlockAt(blocks, p))
    ensures var d := DecodedBlocks(SaveDocument(doc, blocks, cb).blockStates, reg);
      d.Keys == Extent && forall p :: p in Extent ==> d[p] == Plain(BlockAt(blocks, p))
  {
    var d := DecodedBlocks(SaveDocument(doc, blocks, cb).blockStates, reg);
    forall p | p in Extent ensures p in d && d[p] == Plain(BlockAt(blocks, p)) {
      ExtentMembership(p);
      SavedStateAt(doc, blocks, cb, p);
      assert RegistryKnows(reg, BlockAt(blocks, p));
    }
    forall p | p in d ensures p in Extent {
      ExtentMembership(p);
    }
  }

  /** At one coordinate of the chunk, the saved records re-place exactly the handler and data of its block. */
  lemma ReloadedAt(d: map<BlockPos, Block>, blocks: map<BlockPos, Block>, reg: Registries, p: BlockPos)
    requires InExtent(p) && RegistryKnows(reg, BlockAt(blocks, p))
    requires p in d && d[p] == Plain(BlockAt(blocks, p))
    ensures var r := ApplyTileEntities(d, RecordsBefore(blocks, CHUNK_SIZE_X, 0, 0), reg.handlers);
      p in r && r[p] == Reloaded(BlockAt(blocks, p))
  {
    var rs := RecordsBefore(blocks, CHUNK_SIZE_X, 0, 0);
    var handlers := reg.handlers;
    var r := ApplyTileEntities(d, rs, handlers);
    var b := BlockAt(blocks, p);
    TileEntitiesKeepStates(d, rs, handlers);
    assert BlockAt(r, p).name == b.name && BlockAt(r, p).properties == b.properties;
    SavedRecords(blocks);
    if b.handler.Some? {
      var h := b.handler.value;
      assert Stamps(blocks, p, rs);
      var i :| 0 <= i < |rs| && rs[i] == StampRecord(b, h, p);
      ParseStampedRecord(b, h, p, handlers);
      forall j | i < j < |rs| ensures !Targets(rs[j], handlers, p) {
        assert SavedEarlier(rs[i], rs[j]);
        SavedRecordTarget(blocks, handlers, j);
      }
      TileEntityLastWins(d, rs, handlers, i);
    } else {
      forall j | 0 <= j < |rs| ensures !Targets(rs[j], handlers, p) {
        SavedRecordTarget(blocks, handlers, j);
      }
      TileEntitiesElsewhereUnchanged(d, rs, handlers, p);
    }
  }

  /**
   * Save then load restores the chunk's blocks: the loaded chunk holds
   * exactly the 16x256x16 coordinates, each with the Reloaded form of the
   * block saved there, provided the registries know the saved blocks.
   */
  lemma SaveThenLoadBlocks(doc: Document, blocks: map<BlockPos, Block>, cb: seq<Biome>, reg: Registries)
    requires |cb| >= BIOME_COUNT
    requires forall p :: InExtent(p) ==> RegistryKnows(reg, BlockAt(blocks, p))
    ensures var saved := SaveDocument(doc, blocks, cb);
      var r := ApplyTileEntities(DecodedBlocks(saved.blockStates, reg), saved.tileEntities, reg.handlers);
      r.Keys == Extent && forall p :: p in Extent ==> r[p] == Reloaded(BlockAt(blocks, p))
  {
    var d := DecodedBlocks(SaveDocument(doc, blocks, cb).blockStates, reg);
    var rs := RecordsBefore(blocks, CHUNK_SIZE_X, 0, 0);
    assert SaveDocument(doc, blocks, cb).tileEntities == rs;
    DecodeSavedStates(doc, blocks, cb, reg);
    forall i | 0 <= i < |rs| && ParseTileEntity(rs[i], reg.handlers).Some?
      ensures ParseTileEntity(rs[i], reg.handlers).value.pos in d
    {
      SavedRecordTarget(blocks, reg.handlers, i);
      ExtentMembership(TaggedPos(rs[i]).value);
    }
    TileEntitiesWithinKeys(d, rs, reg.handlers);
    forall p | p in Extent ensures ApplyTileEntities(d, rs, reg.handlers)[p] == Reloaded(BlockAt(blocks, p)) {
      ExtentMembership(p);
      ReloadedAt(d, blocks, reg, p);
    }
  }

  /**
   * Save then load of the biomes: each of the 16 bottom cells comes back
   * with the biome of the top cell above it, and every other cell with the
   * biome of the id the document held before the save; with a registry that
   * knows the chunk's biomes, the bottom cells come back as those top biomes.
   */
  lemma SaveThenLoadBiomes(b0: seq<int>, cb: seq<Biome>, registry: map<int, Biome>)
    requires |cb| >= BIOME_COUNT
    ensures var loaded := DecodedBiomes(Full, SavedBiomes(b0, cb), registry);
      |loaded| == |b0| &&
      forall s :: 0 <= s < |loaded| ==>
        loaded[s] == BiomeOrPlains(registry, if s < 16 then cb[TopCell(s)].id else b0[s])
    ensures (forall i :: 0 <= i < BIOME_COUNT ==> cb[i].id in registry && registry[cb[i].id] == cb[i]) ==>
      var loaded := DecodedBiomes(Full, SavedBiomes(b0, cb), registry);
      forall s :: 0 <= s < 16 && s < |loaded| ==> loaded[s] == cb[TopCell(s)]
  {
    assert HasBiomes(Full);
  }
}
