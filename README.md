# Anvil chunk loader, modelled in Dafny

A model of Minestom's `AnvilLoader`, the chunk loader for the Anvil region
format. It converts between an in-memory chunk and its chunk document. A
chunk holds blocks, a 1024-cell biome array and per-section light. A
document holds a generation status, block states, biome ids, tile-entity
records and section light. The loader also keeps a cache (`alreadyLoaded`)
of the open region files, keyed by file name.

The model follows the Java code's imperative shape:

- `AnvilChunkLoader.AnvilLoader` is a class whose `alreadyLoaded` field is a
  `map<string, RegionFile>`.
- `InMemoryChunk.Chunk`, `AnvilRegion.ChunkColumn` (the chunk document) and
  `AnvilRegion.RegionFile` are classes whose fields the operations update.
- The x/z/y loops of `loadBlocks` and `save`, the tile-entity loop and the
  light loop are `while` loops. Each is proved against a function over the
  old state:
  - `DecodedBlocks`, `ApplyTileEntities` and `ApplyLights` for loading;
  - `SaveDocument` for saving.
- Lemmas then state what those functions promise:
  - the index properties of the biome-index expression;
  - which records survive the tile-entity checks, and that the last valid
    record for a coordinate wins;
  - that the saved records are exactly one per handler-bearing block, in
    loop order;
  - the tag round trip;
  - that saving is idempotent;
  - what a load returns for a document written by save (`AnvilRoundTrip`).

Collaborators are parameters:

- **Registries** (`Registries`) are partial maps: block types, block handlers
  and biomes. `Block.withProperties` is an arrow that returns `None` where
  the Java call throws.
- **The file system** (`Storage`) records three things:
  - whether the world folder exists;
  - the region files by name, each either readable (its documents) or
    failing to open;
  - the names whose creation fails.
- **Write failure and the callback** are a `writeFails` flag and a
  `hasCallback` flag. The number of callback invocations is returned.
- **Region coordinates.** `chunkToRegion` is assumed to be floor division by
  32. `createFileName` is the constructor parameter `regionFileName`, of
  which only injectivity is assumed.

Modules: `AnvilTypes` (values), `BiomeIndexing`, `InMemoryChunk`,
`AnvilRegion`, `AnvilDecoder`, `AnvilEncoder`, `AnvilChunkLoader`,
`AnvilRoundTrip`.

A saved and reloaded chunk does not get back the same biome grid and light
arrays. The code differs from that expectation in two ways:

- `save` writes each biome id with `setBiome(x, 0, z, …)` (line 251), so
  only the 16 bottom cells of the document change. Each ends up with the
  biome of the top cell (y = 255) above it. `SavedBiomes` and
  `AnvilRoundTrip.SaveThenLoadBiomes` state what comes back.
- `save` never writes light arrays, so the document keeps the sections it
  already had.

## Model

| member | source | states |
|---|---|---|
| BiomeIndexing.BiomeIndex | src/main/java/net/minestom/server/instance/AnvilLoader.java:249 | the packed 4x4x4 biome index of any Java int coordinate lies in [0, 1024) |
| BiomeIndexing.SameCellSameIndex | src/main/java/net/minestom/server/instance/AnvilLoader.java:249 | all coordinates of one 4x4x4 cell get the same index |
| BiomeIndexing.DistinctCellsDistinctIndices | src/main/java/net/minestom/server/instance/AnvilLoader.java:249 | within the 16x256x16 chunk, two coordinates with equal index lie in the same cell |
| BiomeIndexing.CellDigits | src/main/java/net/minestom/server/instance/AnvilLoader.java:249 | inside the chunk the masks cut nothing off: the index is y/4*16 + z/4*4 + x/4 |
| BiomeIndexing.BottomLayerIndex | src/main/java/net/minestom/server/instance/AnvilLoader.java:249-251 | the (x, 0, z) slot save writes is one of the 16 bottom slots; the top cell above it is slot 1008 + that |
| AnvilDecoder.DecodeBiomes | src/main/java/net/minestom/server/instance/AnvilLoader.java:71-82 | past the Biomes status (strictly) each stored id is resolved or becomes plains, keeping the array's length; at or before Biomes the array is 1024 plains |
| AnvilDecoder.DecodedBlockAt | src/main/java/net/minestom/server/instance/AnvilLoader.java:127-150 | per coordinate: outside the extent, with no readable state, or with an unresolved name or failing withProperties, the chunk keeps its block; otherwise it gets the registered block, with the properties applied when they are non-empty |
| AnvilDecoder.LoadedBeforeOverlay | src/main/java/net/minestom/server/instance/AnvilLoader.java:128-148 | running the block loops up to any cursor overlays exactly the blocks decoded for the coordinates visited so far |
| AnvilDecoder.LoadBlocks | src/main/java/net/minestom/server/instance/AnvilLoader.java:127-150 | the chunk's blocks become the old blocks overlaid with the decoded blocks of the 16x256x16 extent; biomes and light are untouched |
| AnvilDecoder.LoadBlockAt | src/main/java/net/minestom/server/instance/AnvilLoader.java:131-146 | one iteration places the decoded block when there is one and changes nothing otherwise |
| AnvilDecoder.ParseTileEntity | src/main/java/net/minestom/server/instance/AnvilLoader.java:154-170 | a record is accepted exactly when it has a string id, int x, y and z, and a registered handler; it then yields that position, that handler and the record minus id, x, y, z and keepPacked, other tags kept |
| AnvilDecoder.PlaceTileEntity | src/main/java/net/minestom/server/instance/AnvilLoader.java:154-180 | a rejected record leaves the blocks unchanged; an accepted one changes only its coordinate, which keeps its type and properties and gets the handler and the stripped record as data |
| AnvilDecoder.TileEntitiesElsewhereUnchanged | src/main/java/net/minestom/server/instance/AnvilLoader.java:153-180 | a coordinate no accepted record targets keeps its block, or its absence |
| AnvilDecoder.TileEntityLastWins | src/main/java/net/minestom/server/instance/AnvilLoader.java:153-180 | the last accepted record targeting a coordinate decides its handler and data |
| AnvilDecoder.TileEntitiesKeepStates | src/main/java/net/minestom/server/instance/AnvilLoader.java:176-179 | applying records loses no coordinate and changes no block's type or properties |
| AnvilDecoder.TileEntitiesWithinKeys | src/main/java/net/minestom/server/instance/AnvilLoader.java:176-179 | records that target only coordinates that already hold blocks add no coordinate |
| AnvilDecoder.LoadTileEntity | src/main/java/net/minestom/server/instance/AnvilLoader.java:154-180 | one iteration applies the record to the chunk and strips the reserved tags from the record in place exactly when it is accepted |
| AnvilDecoder.LoadTileEntities | src/main/java/net/minestom/server/instance/AnvilLoader.java:152-181 | the chunk's blocks become the records applied in list order; the document's record list becomes the records with accepted ones stripped, nothing else in it changes |
| AnvilDecoder.LightsElsewhereUnchanged | src/main/java/net/minestom/server/instance/AnvilLoader.java:93-98 | a section the document does not list keeps its light |
| AnvilDecoder.LightsCopiedVerbatim | src/main/java/net/minestom/server/instance/AnvilLoader.java:93-98 | a listed section gets the sky-light and block-light arrays of the last document section with its y, verbatim |
| AnvilDecoder.LoadLights | src/main/java/net/minestom/server/instance/AnvilLoader.java:93-98 | the chunk's sections become the document's sections copied in order; blocks and biomes are untouched |
| AnvilEncoder.StampRecord | src/main/java/net/minestom/server/instance/AnvilLoader.java:255-261 | a saved record carries the handler's id, int x, y, z of its coordinate and keepPacked = 0, and elsewhere it is the block's data (or empty) |
| AnvilEncoder.StampedTagsRoundTrip | src/main/java/net/minestom/server/instance/AnvilLoader.java:172-174 | stripping the reserved tags from a saved record gives the block's data minus them, and exactly the block's data when it had none of them |
| AnvilEncoder.ParseStampedRecord | src/main/java/net/minestom/server/instance/AnvilLoader.java:154-170 | a saved record is accepted on load exactly when the handler's id is registered, and then targets its coordinate with the stripped data |
| AnvilEncoder.StatesBeforeAt | src/main/java/net/minestom/server/instance/AnvilLoader.java:239-246 | once the save loops stand at any cursor, each visited chunk coordinate holds (name, properties) of its block and every other entry is the old one |
| AnvilEncoder.StatesBeforeClosedForm | src/main/java/net/minestom/server/instance/AnvilLoader.java:239-246 | the completed save loops write the block states of the whole 16x256x16 chunk over the old ones |
| AnvilEncoder.SlotsBeforeClosedForm | src/main/java/net/minestom/server/instance/AnvilLoader.java:239-251 | once the save loops stand at any cursor, each bottom biome slot holds the id of the last cell written into it, the other slots unchanged |
| AnvilEncoder.BottomSlotOf | src/main/java/net/minestom/server/instance/AnvilLoader.java:249-251 | a bottom slot is written exactly by the coordinates of its 4x4 column of cells, and at y = 255 with the top cell above it |
| AnvilEncoder.RecordsBeforeShape | src/main/java/net/minestom/server/instance/AnvilLoader.java:239-263 | the records built up to any cursor are exactly those of the visited handler-bearing blocks, each naming its coordinate, in visiting order |
| AnvilEncoder.RecordsStepShape | src/main/java/net/minestom/server/instance/AnvilLoader.java:254-263 | one innermost iteration keeps that shape while appending the record of the coordinate it visits |
| AnvilEncoder.SavedRecords | src/main/java/net/minestom/server/instance/AnvilLoader.java:236-268 | the saved list holds one record per handler-bearing coordinate of the chunk and no other, in x-then-z-then-y order |
| AnvilEncoder.SavedStateAt | src/main/java/net/minestom/server/instance/AnvilLoader.java:244-246 | after save every chunk coordinate holds (name, properties) of its block; other entries of the document stay as they were |
| AnvilEncoder.SaveDocumentIdempotent | src/main/java/net/minestom/server/instance/AnvilLoader.java:236-268 | saving the same chunk twice yields the document saving once yields |
| AnvilEncoder.SaveBlockAt | src/main/java/net/minestom/server/instance/AnvilLoader.java:242-263 | one iteration writes the block state and the bottom biome slot, and returns the coordinate's record if its block has a handler |
| AnvilEncoder.Save | src/main/java/net/minestom/server/instance/AnvilLoader.java:236-268 | the document becomes status Full, the chunk's block states over the old ones, the SavedBiomes array, and a fresh record list replacing the old one; its sections are kept |
| AnvilChunkLoader.ChunkToRegion | src/main/java/net/minestom/server/instance/AnvilLoader.java:111-112 | the region r holding chunk coordinate c satisfies 32r <= c < 32r + 32 |
| AnvilChunkLoader.DecodeColumn | src/main/java/net/minestom/server/instance/AnvilLoader.java:71-98 | the new chunk gets the decoded biomes, the decoded blocks with the records applied, and the document's light |
| AnvilChunkLoader.SaveIntoRegion | src/main/java/net/minestom/server/instance/AnvilLoader.java:212-230 | true exactly when the document reads and the write succeeds; then the region holds the saved document for the chunk (from the stored document, or an empty one), otherwise it is unchanged |
| AnvilChunkLoader.AnvilLoader.CachedHandlesDistinct | src/main/java/net/minestom/server/instance/AnvilLoader.java:110-125 | no open region handle is filed under two names |
| AnvilChunkLoader.AnvilLoader.GetMCAFile | src/main/java/net/minestom/server/instance/AnvilLoader.java:110-125 | a cached handle is returned and kept; otherwise a readable file is opened and cached; a missing or unopenable file gives null and caches nothing |
| AnvilChunkLoader.AnvilLoader.LoadMCA | src/main/java/net/minestom/server/instance/AnvilLoader.java:63-108 | a chunk, decoded from the document, exactly when the region opens and holds an intact document for the chunk; the callback fires exactly then; what later loads see is unchanged |
| AnvilChunkLoader.AnvilLoader.LoadChunk | src/main/java/net/minestom/server/instance/AnvilLoader.java:48-61 | true exactly when the world folder exists and the chunk's document is found and read, with the callback fired once exactly then; cached handles are kept |
| AnvilChunkLoader.AnvilLoader.OpenForSave | src/main/java/net/minestom/server/instance/AnvilLoader.java:189-212 | a handle exactly when the region is cached, opens or can be created; it is then cached under the region's name and holds the region's documents, and no other cache entry changes |
| AnvilChunkLoader.AnvilLoader.SaveChunk | src/main/java/net/minestom/server/instance/AnvilLoader.java:185-234 | true exactly when the region is cached, opens or is created, the document reads and the write succeeds; the callback fires exactly then; a region is cached only once it opens or is created; only the chunk's region changes, and on success it holds the saved document |
| AnvilRoundTrip.ReloadedUnchanged | src/main/java/net/minestom/server/instance/AnvilLoader.java:172-179 | a saved block comes back unchanged exactly when it has a handler and data without reserved tags, or neither |
| AnvilRoundTrip.SavedRecordTarget | src/main/java/net/minestom/server/instance/AnvilLoader.java:154-170 | every saved record names a chunk coordinate whose block has a handler, and if accepted on load it targets that coordinate |
| AnvilRoundTrip.DecodeSavedStates | src/main/java/net/minestom/server/instance/AnvilLoader.java:127-150 | decoding the saved block states yields exactly the chunk coordinates, each with its block's type and properties and no handler or data |
| AnvilRoundTrip.ReloadedAt | src/main/java/net/minestom/server/instance/AnvilLoader.java:152-181 | applying the saved records to those decoded blocks restores each coordinate's handler and its data minus the reserved tags |
| AnvilRoundTrip.SaveThenLoadBlocks | src/main/java/net/minestom/server/instance/AnvilLoader.java:127-181 | loading a saved document yields exactly the 16x256x16 coordinates, each with the saved block's type, properties and handler, and its data minus reserved tags, provided the registries know the blocks |
| AnvilRoundTrip.SaveThenLoadBiomes | src/main/java/net/minestom/server/instance/AnvilLoader.java:72-78 | after save, each bottom cell loads as the top cell's biome and every other cell as the biome of the id the document already held |

## Left out

- File-system I/O is replaced by the `Storage` value. This covers `Files.exists`, `RandomAccessFile`, `mkdirs` and `createNewFile`. A region file created by `saveChunk` is visible to later calls only through the cached handle.
- The binary layout of region files and documents, and NBT serialisation, are left out. Documents and compounds are maps.
- Concurrency is not modelled: the `ConcurrentHashMap` and the `synchronized (alreadyLoaded)` block. The cache is modelled sequentially.
- Logging and `printStackTrace` are left out.
- `mcaFile.forget` is left out; it is a memory hint with no effect on results.
- The `Instance` parameter is left out, as is everything a `DynamicChunk` does beyond storing blocks, biomes and section light.
- In the model, blocks are stored at the exact coordinates given. Any coordinate masking that `Chunk.setBlock` and `getBlock` do for tile-entity positions outside 0..15 is not modelled. This matters for region files written by the game: their records carry world x and z. For every chunk other than (0, 0) the model places such records outside the 16x256x16 extent, where the Java lands them inside the chunk. Records written by `save` (lines 258-260) carry chunk-local coordinates and are not affected.
- Registry internals are abstract maps. `Block.withProperties` is an arbitrary function: `None` stands for the exception that `loadBlocks` catches.
- The hephaistos `setBiome(x, y, z, id)` is assumed to store `id` in slot `BiomeIndex(x, y, z)` of the document's biome array, when the array has that slot.
- The content of a document made by `getOrCreateChunk` is assumed to be status Empty, no block states, 1024 zero biome ids, no records and no sections.
- `Biome.PLAINS` is given id 0.
- `getInt` and `getString` are assumed to return null for a tag of another kind.
- `chunkToRegion` is assumed to be floor division by 32. For `createFileName`, only injectivity is assumed.
- A region file that exists but fails to open is assumed to fail again when `saveChunk` reopens it.
- An `AnvilException` from `getChunk` is modelled, like a missing document, as a null result of `LoadMCA`. `loadChunk` returns false in both cases.
- AnvilEncoder.Save: requires a biome array of at least 1024 entries. With a shorter array the Java loop throws an `ArrayIndexOutOfBoundsException` part-way through, and that case is not modelled.
- AnvilEncoder.SaveBlockAt: carries the same requirement of at least 1024 biomes, for the same reason.
- AnvilChunkLoader.SaveIntoRegion: carries the same requirement of at least 1024 biomes, because it runs Save.
- AnvilChunkLoader.AnvilLoader.SaveChunk: inherits Save's requirement of at least 1024 biomes.
