// Values shared by the Anvil chunk loader model: block positions, blocks,
// biomes, NBT compounds, generation status and the registries the loader
// consults (block types, block handlers, biomes).
module AnvilTypes {

  datatype Option<+T> = None | Some(value: T)

  /** Chunk.CHUNK_SIZE_X and Chunk.CHUNK_SIZE_Z. */
  const CHUNK_SIZE_X: int := 16
  const CHUNK_SIZE_Z: int := 16
  /** The world height that the load and save loops hard-code. */
  const CHUNK_HEIGHT: int := 256
  /** Number of biome cells of a chunk: (16/4) * (256/4) * (16/4). */
  const BIOME_COUNT: int := 1024

  datatype BlockPos = BlockPos(x: int, y: int, z: int)
  datatype ChunkPos = ChunkPos(x: int, z: int)

  /** The coordinates the load and save loops visit. */
  predicate InExtent(p: BlockPos) {
    0 <= p.x < CHUNK_SIZE_X && 0 <= p.y < CHUNK_HEIGHT && 0 <= p.z < CHUNK_SIZE_Z
  }

  /**
   * The same coordinates as a finite set: map comprehensions over the extent
   * need a finite domain to range over, while InExtent keeps per-coordinate
   * reasoning free of set membership. ExtentMembership relates the two.
   */
  const Extent: set<BlockPos> :=
    set x: int, y: int, z: int | 0 <= x < 16 && 0 <= y < 256 && 0 <= z < 16 :: BlockPos(x, y, z)

  lemma ExtentMembership(p: BlockPos)
    ensures p in Extent <==> InExtent(p)
  {
    if InExtent(p) {
      assert p == BlockPos(p.x, p.y, p.z);
    }
  }

  /**
   * True when the loops `for x { for z { for y { .. } } }` have already
   * visited p once they stand at the cursor (x, z, y).
   */
  predicate VisitedBefore(p: BlockPos, x: int, z: int, y: int) {
    p.x < x || (p.x == x && (p.z < z || (p.z == z && p.y < y)))
  }

  /** A loop cursor (x, z, y) the x-then-z-then-y loops over the extent can stand at. */
  predicate Cursor(x: int, z: int, y: int) {
    0 <= x <= CHUNK_SIZE_X && 0 <= z <= CHUNK_SIZE_Z && 0 <= y <= CHUNK_HEIGHT &&
    (x < CHUNK_SIZE_X || (z == 0 && y == 0)) && (z < CHUNK_SIZE_Z || y == 0)
  }

  // ---------------------------------------------------------------- NBT

  /** An NBT tag; TagOther stands for every kind this layer only carries along. */
  datatype Tag = TagString(s: string) | TagInt(i: int) | TagByte(b: int) | TagOther(payload: seq<int>)

  type Compound = map<string, Tag>

  /** NBTCompound.getString: the value when the key holds a string tag, null otherwise. */
  function GetString(c: Compound, key: string): Option<string> {
    if key in c && c[key].TagString? then Some(c[key].s) else None
  }

  /** NBTCompound.getInt: the value when the key holds an int tag, null otherwise. */
  function GetInt(c: Compound, key: string): Option<int> {
    if key in c && c[key].TagInt? then Some(c[key].i) else None
  }

  /** The tags the Anvil format reserves on a tile-entity record. */
  const RESERVED_TAGS: set<string> := {"id", "x", "y", "z", "keepPacked"}

  // ------------------------------------------------------------- blocks

  datatype BlockHandler = BlockHandler(namespaceId: string)

  type Properties = map<string, string>

  /** An immutable block value: its type name, properties, handler and NBT data. */
  datatype Block = Block(name: string, properties: Properties, handler: Option<BlockHandler>, nbt: Option<Compound>)

  const AIR: Block := Block("minecraft:air", map[], None, None)

  /** Block.withHandler and Block.withNbt. */
  function WithHandler(b: Block, h: BlockHandler): Block { b.(handler := Some(h)) }
  function WithNbt(b: Block, c: Compound): Block { b.(nbt := Some(c)) }

  /** A persisted block state: a name and its property map. */
  datatype BlockState = BlockState(name: string, properties: Properties)

  // ------------------------------------------------------------- biomes

  datatype Biome = Biome(id: int, name: string)

  /** Biome.PLAINS, the loader's default biome. */
  const PLAINS: Biome := Biome(0, "minecraft:plains")

  /** Objects.requireNonNullElse(BIOME_MANAGER.getById(id), PLAINS). */
  function BiomeOrPlains(registry: map<int, Biome>, id: int): Biome {
    if id in registry then registry[id] else PLAINS
  }

  // -------------------------------------------------- generation status

  /** ChunkColumn.GenerationStatus, in declaration order. */
  datatype GenerationStatus =
    | Empty | StructureStarts | StructureReferences | Biomes | Noise | Surface
    | Carvers | LiquidCarvers | Features | Light | Spawn | Heightmaps | Full

  function Ordinal(s: GenerationStatus): nat {
    match s
    case Empty => 0
    case StructureStarts => 1
    case StructureReferences => 2
    case Biomes => 3
    case Noise => 4
    case Surface => 5
    case Carvers => 6
    case LiquidCarvers => 7
    case Features => 8
    case Light => 9
    case Spawn => 10
    case Heightmaps => 11
    case Full => 12
  }

  // --------------------------------------------------------- registries

  /**
   * The collaborators the loader consults, as partial maps:
   * Block.fromNamespaceId, BLOCK_MANAGER.getHandler, BIOME_MANAGER.getById,
   * and Block.withProperties, which yields None when it throws.
   */
  datatype Registries = Registries(
    blocks: map<string, Block>,
    handlers: map<string, BlockHandler>,
    biomes: map<int, Biome>,
    withProperties: (Block, Properties) -> Option<Block>)
}
