// The Anvil chunk loader: a cache of open region files, loading a chunk from
// its region's document and saving a chunk into it.
module AnvilChunkLoader {
  import opened AnvilTypes
  import opened InMemoryChunk
  import opened AnvilRegion
  import opened AnvilDecoder
  import opened AnvilEncoder

  /** CoordinatesKt.chunkToRegion: the region, 32 chunks a side, that holds a chunk coordinate. */
  function ChunkToRegion(c: int): (r: int)
    ensures 32 * r <= c < 32 * r + 32
  {
    c / 32
  }

  /** Distinct region coordinates get distinct file names. */
  ghost predicate InjectiveNaming(f: (int, int) -> string) {
    forall a, b, c, d :: f(a, b) == f(c, d) ==> a == c && b == d
  }

  /**
   * The decoding part of loadMCA: a new chunk with the document's biomes,
   * its decoded blocks with the tile entities applied, and its light.
   */
  method DecodeColumn(fileChunk: ChunkColumn, reg: Registries) returns (chunk: Chunk)
    modifies fileChunk
    ensures var doc := old(fileChunk.Snapshot());
      fresh(chunk) && chunk.chunkX == fileChunk.chunkX && chunk.chunkZ == fileChunk.chunkZ &&
      chunk.biomes == DecodedBiomes(doc.status, doc.biomes, reg.biomes) &&
      chunk.blocks == ApplyTileEntities(DecodedBlocks(doc.blockStates, reg), doc.tileEntities, reg.handlers) &&
      chunk.sections == ApplyLights(map[], doc.sections)
  {
    ghost var doc := fileChunk.Snapshot();
    var biomes := DecodeBiomes(fileChunk.status, fileChunk.biomes, reg.biomes);
    chunk := new Chunk(biomes, fileChunk.chunkX, fileChunk.chunkZ);

    // Blocks
    LoadBlocks(chunk, fileChunk, reg);
    assert chunk.blocks == DecodedBlocks(doc.blockStates, reg);
    LoadTileEntities(chunk, fileChunk, reg.handlers);

    // Lights
    LoadLights(chunk, fileChunk);
  }

  /**
   * The writing part of saveChunk, once the region is open: reads or creates
   * the chunk's document, saves the chunk into it and writes it back. False,
   * with nothing written, when the document is unreadable or the write fails.
   */
  method SaveIntoRegion(mcaFile: RegionFile, chunk: Chunk, writeFails: bool) returns (saved: bool)
    requires |chunk.biomes| >= BIOME_COUNT
    modifies mcaFile
    ensures var pos := ChunkPos(chunk.chunkX, chunk.chunkZ);
      var columns := old(mcaFile.columns);
      saved <==> !(pos in columns && columns[pos].Corrupt?) && !writeFails
    ensures var pos := ChunkPos(chunk.chunkX, chunk.chunkZ);
      var columns := old(mcaFile.columns);
      mcaFile.columns ==
        if saved then
          var doc := if pos in columns then columns[pos].doc else EMPTY_DOCUMENT;
          columns[pos := Intact(SaveDocument(doc, chunk.blocks, chunk.biomes))]
        else columns
  {
    var read := mcaFile.GetOrCreateChunk(chunk.chunkX, chunk.chunkZ);
    if !read.Found? {
      return false;
    }
    var column := read.column;
    Save(chunk, column);
    saved := mcaFile.WriteColumn(column, writeFails);
  }

  class AnvilLoader {
    /** RegionFile.createFileName, with the region folder's path folded in. */
    const regionFileName: (int, int) -> string
    /** The open region files by file name. */
    var alreadyLoaded: map<string, RegionFile>

    /** Every cached handle is filed under its own region's name. */
    ghost predicate Valid()
      reads this
    {
      InjectiveNaming(regionFileName) &&
      forall n :: n in alreadyLoaded ==> regionFileName(alreadyLoaded[n].regionX, alreadyLoaded[n].regionZ) == n
    }

    constructor (regionFileName: (int, int) -> string)
      requires InjectiveNaming(regionFileName)
      ensures Valid() && this.regionFileName == regionFileName && alreadyLoaded == map[]
    {
      this.regionFileName := regionFileName;
      alreadyLoaded := map[];
    }

    /** The file name of the region that holds a chunk. */
    function RegionName(chunkX: int, chunkZ: int): string {
      regionFileName(ChunkToRegion(chunkX), ChunkToRegion(chunkZ))
    }

    /** A cached handle is never shared by two names. */
    lemma CachedHandlesDistinct(n: string, m: string)
      requires Valid() && n in alreadyLoaded && m in alreadyLoaded && n != m
      ensures alreadyLoaded[n] != alreadyLoaded[m]
    {
      var h, k := alreadyLoaded[n], alreadyLoaded[m];
      assert regionFileName(h.regionX, h.regionZ) == n && regionFileName(k.regionX, k.regionZ) == m;
    }

    /**
     * The documents a load reads under a file name: those of the cached
     * handle, else those of a readable file on disk, else none.
     */
    ghost function RegionColumns(n: string, storage: Storage): Option<map<ChunkPos, StoredColumn>>
      reads this, alreadyLoaded.Values
    {
      if n in alreadyLoaded then Some(alreadyLoaded[n].columns)
      else if n in storage.regions && storage.regions[n].Readable? then Some(storage.regions[n].columns)
      else None
    }

    /** The document a load of a chunk finds, when its region opens and holds an intact one. */
    ghost function StoredDocument(chunkX: int, chunkZ: int, storage: Storage): Option<Document>
      reads this, alreadyLoaded.Values
    {
      var pos := ChunkPos(chunkX, chunkZ);
      match RegionColumns(RegionName(chunkX, chunkZ), storage)
      case Some(columns) => if pos in columns && columns[pos].Intact? then Some(columns[pos].doc) else None
      case None => None
    }

    /**
     * The documents a save writes into under a file name: those of the
     * cached or readable region, or none yet for a file that does not exist
     * and can be created; None when the region can neither be opened nor
     * created.
     */
    ghost function SaveRegion(n: string, storage: Storage): Option<map<ChunkPos, StoredColumn>>
      reads this, alreadyLoaded.Values
    {
      if RegionColumns(n, storage).Some? then RegionColumns(n, storage)
      else if n !in storage.regions && n !in storage.creationFails then Some(map[])
      else None
    }

    /**
     * getMCAFile: the cached handle for the chunk's region, else the region
     * file opened and cached, else null, with nothing cached, when the file is
     * missing or fails to open.
     */
    method GetMCAFile(chunkX: int, chunkZ: int, storage: Storage) returns (file: RegionFile?)
      requires Valid()
      modifies this
      ensures Valid()
      ensures var n := RegionName(chunkX, chunkZ);
        if n in old(alreadyLoaded) then
          file == old(alreadyLoaded)[n] && alreadyLoaded == old(alreadyLoaded)
        else if n in storage.regions && storage.regions[n].Readable? then
          file != null && fresh(file) && alreadyLoaded == old(alreadyLoaded)[n := file] &&
          file.regionX == ChunkToRegion(chunkX) && file.regionZ == ChunkToRegion(chunkZ) &&
          file.columns == storage.regions[n].columns
        else
          file == null && alreadyLoaded == old(alreadyLoaded)
    {
      var regionX, regionZ := ChunkToRegion(chunkX), ChunkToRegion(chunkZ);
      var n := regionFileName(regionX, regionZ);
      if n in alreadyLoaded {
        file := alreadyLoaded[n];
      } else if n in storage.regions && storage.regions[n].Readable? {
        file := new RegionFile(regionX, regionZ, storage.regions[n].columns);
        alreadyLoaded := alreadyLoaded[n := file];
      } else {
        file := null;
      }
    }

    /**
     * loadMCA: decodes the chunk's document into a new chunk (biomes, blocks,
     * tile entities, then light) and fires the callback; null, with no
     * callback, when the region or the document is missing or unreadable.
     */
    method LoadMCA(chunkX: int, chunkZ: int, storage: Storage, reg: Registries, hasCallback: bool)
      returns (chunk: Chunk?, callbacks: nat)
      requires Valid()
      modifies this
      ensures Valid()
      ensures chunk != null <==> old(StoredDocument(chunkX, chunkZ, storage)).Some?
      ensures callbacks == if chunk != null && hasCallback then 1 else 0
      ensures chunk != null ==>
        var doc := old(StoredDocument(chunkX, chunkZ, storage)).value;
        fresh(chunk) && chunk.chunkX == chunkX && chunk.chunkZ == chunkZ &&
        chunk.biomes == DecodedBiomes(doc.status, doc.biomes, reg.biomes) &&
        chunk.blocks == ApplyTileEntities(DecodedBlocks(doc.blockStates, reg), doc.tileEntities, reg.handlers) &&
        chunk.sections == ApplyLights(map[], doc.sections)
      ensures forall m :: RegionColumns(m, storage) == old(RegionColumns(m, storage))
      ensures old(alreadyLoaded).Keys <= alreadyLoaded.Keys
      ensures forall m :: m in old(alreadyLoaded) ==> alreadyLoaded[m] == old(alreadyLoaded)[m]
    {
      callbacks := 0;
      var mcaFile := GetMCAFile(chunkX, chunkZ, storage);
      if mcaFile == null {
        return null, 0;
      }
      var read := mcaFile.GetChunk(chunkX, chunkZ);
      if !read.Found? {
        return null, 0;
      }
      chunk := DecodeColumn(read.column, reg);
      if hasCallback {
        callbacks := 1;
      }
    }

    /**
     * loadChunk: true exactly when the world folder exists and the chunk's
     * document is found and read; the callback fires exactly then, if given.
     */
    method LoadChunk(chunkX: int, chunkZ: int, storage: Storage, reg: Registries, hasCallback: bool)
      returns (loaded: bool, chunk: Chunk?, callbacks: nat)
      requires Valid()
      modifies this
      ensures Valid()
      ensures loaded <==> storage.worldExists && old(StoredDocument(chunkX, chunkZ, storage)).Some?
      ensures loaded <==> chunk != null
      ensures callbacks == if loaded && hasCallback then 1 else 0
      ensures loaded ==>
        var doc := old(StoredDocument(chunkX, chunkZ, storage)).value;
        fresh(chunk) && chunk.chunkX == chunkX && chunk.chunkZ == chunkZ &&
        chunk.biomes == DecodedBiomes(doc.status, doc.biomes, reg.biomes) &&
        chunk.blocks == ApplyTileEntities(DecodedBlocks(doc.blockStates, reg), doc.tileEntities, reg.handlers) &&
        chunk.sections == ApplyLights(map[], doc.sections)
      ensures forall m :: RegionColumns(m, storage) == old(RegionColumns(m, storage))
      ensures old(alreadyLoaded).Keys <= alreadyLoaded.Keys
      ensures forall m :: m in old(alreadyLoaded) ==> alreadyLoaded[m] == old(alreadyLoaded)[m]
      ensures !storage.worldExists ==> alreadyLoaded == old(alreadyLoaded)
    {
      if !storage.worldExists {
        // No world folder
        return false, null, 0;
      }
      chunk, callbacks := LoadMCA(chunkX, chunkZ, storage, reg, hasCallback);
      loaded := chunk != null;
    }

    /**
     * The first part of saveChunk: the region's cached or opened handle, else
     * a handle on a newly created empty file, cached; null, with nothing
     * cached, when the existing file fails to open or the file cannot be
     * created.
     */
    method OpenForSave(chunkX: int, chunkZ: int, storage: Storage) returns (mcaFile: RegionFile?)
      requires Valid()
      modifies this
      ensures Valid()
      ensures var n := RegionName(chunkX, chunkZ);
        var columns := old(SaveRegion(n, storage));
        (mcaFile != null <==> columns.Some?) &&
        (mcaFile != null ==>
          n in alreadyLoaded && alreadyLoaded[n] == mcaFile && mcaFile.columns == columns.value &&
          (n in old(alreadyLoaded) || fresh(mcaFile))) &&
        alreadyLoaded.Keys == old(alreadyLoaded).Keys + (if columns.Some? then {n} else {})
      ensures forall m :: m in old(alreadyLoaded) ==> alreadyLoaded[m] == old(alreadyLoaded)[m]
    {
      var n := RegionName(chunkX, chunkZ);
      mcaFile := GetMCAFile(chunkX, chunkZ, storage);
      if mcaFile == null {
        var regionX, regionZ := ChunkToRegion(chunkX), ChunkToRegion(chunkZ);
        if n in storage.regions || n in storage.creationFails {
          // the existing file fails to open, or the new file cannot be created
          return null;
        }
        mcaFile := new RegionFile(regionX, regionZ, map[]);
        alreadyLoaded := alreadyLoaded[n := mcaFile];
      }
    }

    /**
     * saveChunk: writes the chunk into its document and the document into the
     * region, opening or creating (and caching) the region first if needed.
     * True exactly when the region opens or is created, its document reads
     * and the write succeeds; the callback fires exactly then, if given.
     */
    method SaveChunk(chunk: Chunk, storage: Storage, writeFails: bool, hasCallback: bool)
      returns (saved: bool, callbacks: nat)
      requires Valid() && |chunk.biomes| >= BIOME_COUNT
      modifies this, alreadyLoaded.Values
      ensures Valid()
      ensures var n := RegionName(chunk.chunkX, chunk.chunkZ);
        var pos := ChunkPos(chunk.chunkX, chunk.chunkZ);
        var columns := old(SaveRegion(n, storage));
        saved <==> columns.Some? && !(pos in columns.value && columns.value[pos].Corrupt?) && !writeFails
      ensures callbacks == if saved && hasCallback then 1 else 0
      ensures var n := RegionName(chunk.chunkX, chunk.chunkZ);
        var pos := ChunkPos(chunk.chunkX, chunk.chunkZ);
        var columns := old(SaveRegion(n, storage));
        columns.Some? ==>
          RegionColumns(n, storage) == Some(
            if saved then
              var doc := if pos in columns.value then columns.value[pos].doc else EMPTY_DOCUMENT;
              columns.value[pos := Intact(SaveDocument(doc, chunk.blocks, chunk.biomes))]
            else columns.value)
      ensures var n := RegionName(chunk.chunkX, chunk.chunkZ);
        forall m :: m != n || old(SaveRegion(n, storage)).None? ==> RegionColumns(m, storage) == old(RegionColumns(m, storage))
      ensures var n := RegionName(chunk.chunkX, chunk.chunkZ);
        alreadyLoaded.Keys == old(alreadyLoaded).Keys + (if old(SaveRegion(n, storage)).Some? then {n} else {})
      ensures forall m :: m in old(alreadyLoaded) ==> alreadyLoaded[m] == old(alreadyLoaded)[m]
    {
      callbacks := 0;
      var n := RegionName(chunk.chunkX, chunk.chunkZ);
      var mcaFile := OpenForSave(chunk.chunkX, chunk.chunkZ, storage);
      if mcaFile == null {
        return false, 0;
      }
      saved := SaveIntoRegion(mcaFile, chunk, writeFails);
      forall m | m in alreadyLoaded && m != n
        ensures alreadyLoaded[m].columns == old(alreadyLoaded[m].columns)
      {
        CachedHandlesDistinct(m, n);
      }
      if saved && hasCallback {
        callbacks := 1;
      }
    }
  }
}
