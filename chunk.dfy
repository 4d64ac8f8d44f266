// The in-memory chunk as far as the loader reads and writes it: its blocks,
// its biome array and the light arrays of its sections.
module InMemoryChunk {
  import opened AnvilTypes

  /** The light arrays of one section. */
  datatype SectionLight = SectionLight(skyLight: seq<bv8>, blockLight: seq<bv8>)

  /** The light of a section nobody has written yet. */
  const NO_LIGHT: SectionLight := SectionLight([], [])

  /** Chunk.getBlock on the block map: a coordinate never set holds air. */
  function BlockAt(blocks: map<BlockPos, Block>, p: BlockPos): Block {
    if p in blocks then blocks[p] else AIR
  }

  /** Chunk.getSection on the section map. */
  function SectionAt(sections: map<int, SectionLight>, sectionY: int): SectionLight {
    if sectionY in sections then sections[sectionY] else NO_LIGHT
  }

  class Chunk {
    const chunkX: int
    const chunkZ: int
    /** The blocks set so far; every other coordinate holds air. */
    var blocks: map<BlockPos, Block>
    var biomes: seq<Biome>
    /** Light arrays by section y. */
    var sections: map<int, SectionLight>

    /** `new DynamicChunk(instance, biomes, chunkX, chunkZ)`. */
    constructor (biomes: seq<Biome>, chunkX: int, chunkZ: int)
      ensures this.chunkX == chunkX && this.chunkZ == chunkZ
      ensures this.biomes == biomes && blocks == map[] && sections == map[]
    {
      this.chunkX := chunkX;
      this.chunkZ := chunkZ;
      this.biomes := biomes;
      blocks := map[];
      sections := map[];
    }

    function GetBlock(p: BlockPos): Block
      reads this
    {
      BlockAt(blocks, p)
    }

    method SetBlock(p: BlockPos, b: Block)
      modifies this
      ensures blocks == old(blocks)[p := b]
      ensures biomes == old(biomes) && sections == old(sections)
    {
      blocks := blocks[p := b];
    }

    method SetSkyLight(sectionY: int, light: seq<bv8>)
      modifies this
      ensures sections == old(sections)[sectionY := SectionAt(old(sections), sectionY).(skyLight := light)]
      ensures blocks == old(blocks) && biomes == old(biomes)
    {
      sections := sections[sectionY := SectionAt(sections, sectionY).(skyLight := light)];
    }

    method SetBlockLight(sectionY: int, light: seq<bv8>)
      modifies this
      ensures sections == old(sections)[sectionY := SectionAt(old(sections), sectionY).(blockLight := light)]
      ensures blocks == old(blocks) && biomes == old(biomes)
    {
      sections := sections[sectionY := SectionAt(sections, sectionY).(blockLight := light)];
    }
  }
}
