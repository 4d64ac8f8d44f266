// The persisted side: a chunk document (ChunkColumn), the region file that
// stores documents, and the file system as the loader observes it.
module AnvilRegion {
  import opened AnvilTypes
  import opened BiomeIndexing

  /** The light arrays of one section of a document, with the section's y. */
  datatype ChunkSection = ChunkSection(y: int, skyLights: seq<bv8>, blockLights: seq<bv8>)

  /**
   * The content of one chunk document. A coordinate missing from blockStates
   * is one whose getBlockState call throws.
   */
  datatype Document = Document(
    status: GenerationStatus,
    blockStates: map<BlockPos, BlockState>,
    biomes: seq<int>,
    tileEntities: seq<Compound>,
    sections: seq<ChunkSection>)

  /** The document getOrCreateChunk makes for a chunk the region does not hold. */
  const EMPTY_DOCUMENT: Document := Document(Empty, map[], seq(BIOME_COUNT, _ => 0), [], [])

  /** A stored document, or one whose reading fails with an AnvilException. */
  datatype StoredColumn = Intact(doc: Document) | Corrupt

  /** A chunk document being read or written. */
  class ChunkColumn {
    const chunkX: int
    const chunkZ: int
    var status: GenerationStatus
    var blockStates: map<BlockPos, BlockState>
    var biomes: seq<int>
    var tileEntities: seq<Compound>
    var sections: seq<ChunkSection>

    function Snapshot(): Document
      reads this
    {
      Document(status, blockStates, biomes, tileEntities, sections)
    }

    constructor (chunkX: int, chunkZ: int, doc: Document)
      ensures this.chunkX == chunkX && this.chunkZ == chunkZ && Snapshot() == doc
    {
      this.chunkX, this.chunkZ := chunkX, chunkZ;
      status, blockStates, biomes := doc.status, doc.blockStates, doc.biomes;
      tileEntities, sections := doc.tileEntities, doc.sections;
    }

    method SetGenerationStatus(s: GenerationStatus)
      modifies this
      ensures Snapshot() == old(Snapshot()).(status := s)
    {
      status := s;
    }

    method SetBlockState(p: BlockPos, state: BlockState)
      modifies this
      ensures Snapshot() == old(Snapshot()).(blockStates := old(blockStates)[p := state])
    {
      blockStates := blockStates[p := state];
    }

    /**
     * Stores a biome id for the position (x, y, z) in the 4x4x4 slot of that
     * position, when the biome array has that slot.
     */
    method SetBiome(x: int, y: int, z: int, id: int)
      modifies this
      ensures var slot := BiomeIndex(x, y, z);
        Snapshot() == old(Snapshot()).(biomes := if slot < |old(biomes)| then old(biomes)[slot := id] else old(biomes))
    {
      var slot := BiomeIndex(x, y, z);
      if slot < |biomes| {
        biomes := biomes[slot := id];
      }
    }

    method SetTileEntities(records: seq<Compound>)
      modifies this
      ensures Snapshot() == old(Snapshot()).(tileEntities := records)
    {
      tileEntities := records;
    }
  }

  /** The result of asking a region file for a chunk document. */
  datatype ColumnRead = Found(column: ChunkColumn) | Absent | Failed

  /** An open region file: the documents of the chunks of one region. */
  class RegionFile {
    const regionX: int
    const regionZ: int
    var columns: map<ChunkPos, StoredColumn>

    constructor (regionX: int, regionZ: int, columns: map<ChunkPos, StoredColumn>)
      ensures this.regionX == regionX && this.regionZ == regionZ && this.columns == columns
    {
      this.regionX, this.regionZ, this.columns := regionX, regionZ, columns;
    }

    /** RegionFile.getChunk: the stored document, null, or an AnvilException. */
    method GetChunk(chunkX: int, chunkZ: int) returns (r: ColumnRead)
      ensures var pos := ChunkPos(chunkX, chunkZ);
        match r
        case Found(column) =>
          pos in columns && columns[pos].Intact? && fresh(column) &&
          column.chunkX == chunkX && column.chunkZ == chunkZ && column.Snapshot() == columns[pos].doc
        case Absent => pos !in columns
        case Failed => pos in columns && columns[pos].Corrupt?
    {
      var pos := ChunkPos(chunkX, chunkZ);
      if pos !in columns {
        r := Absent;
      } else if columns[pos].Corrupt? {
        r := Failed;
      } else {
        var column := new ChunkColumn(chunkX, chunkZ, columns[pos].doc);
        r := Found(column);
      }
    }

    /** RegionFile.getOrCreateChunk: the stored document, a new empty one, or an AnvilException. */
    method GetOrCreateChunk(chunkX: int, chunkZ: int) returns (r: ColumnRead)
      ensures var pos := ChunkPos(chunkX, chunkZ);
        match r
        case Found(column) =>
          (pos !in columns || columns[pos].Intact?) && fresh(column) &&
          column.chunkX == chunkX && column.chunkZ == chunkZ &&
          column.Snapshot() == (if pos in columns then columns[pos].doc else EMPTY_DOCUMENT)
        case Absent => false
        case Failed => pos in columns && columns[pos].Corrupt?
    {
      var pos := ChunkPos(chunkX, chunkZ);
      if pos in columns && columns[pos].Corrupt? {
        r := Failed;
      } else {
        var doc := if pos in columns then columns[pos].doc else EMPTY_DOCUMENT;
        var column := new ChunkColumn(chunkX, chunkZ, doc);
        r := Found(column);
      }
    }

    /**
     * RegionFile.writeColumn: stores the column's document, unless the write
     * fails with an IOException (`ioFailure`), in which case nothing is stored.
     */
    method WriteColumn(column: ChunkColumn, ioFailure: bool) returns (ok: bool)
      modifies this
      ensures ok == !ioFailure
      ensures columns == if ok then old(columns)[ChunkPos(column.chunkX, column.chunkZ) := Intact(column.Snapshot())]
                         else old(columns)
    {
      ok := !ioFailure;
      if ok {
        columns := columns[ChunkPos(column.chunkX, column.chunkZ) := Intact(column.Snapshot())];
      }
    }
  }

  /** A region file on disk: its documents, or a file that fails to open. */
  datatype RegionData = Readable(columns: map<ChunkPos, StoredColumn>) | Unopenable

  /**
   * The file system as the loader observes it: whether the world folder exists,
   * the region files by name, and the names whose creation fails.
   */
  datatype Storage = Storage(worldExists: bool, regions: map<string, RegionData>, creationFails: set<string>)
}
