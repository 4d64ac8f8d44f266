// The 4x4x4 biome sub-sampling index the save path computes for every
// coordinate.
module BiomeIndexing {
  import opened AnvilTypes

  /**
   * `((y >> 2) & 63) << 4 | ((z >> 2) & 3) << 2 | ((x >> 2) & 3)` on Java ints.
   * On two's-complement ints `v >> 2` is floor division by 4 and `v & (2^k - 1)`
   * is the non-negative remainder modulo 2^k, which are Dafny's `/` and `%` by a
   * positive constant; the shifted fields occupy bits 4..9, 2..3 and 0..1, so
   * the shifts cannot overflow and `|` adds them. The formula is therefore exact
   * for every int, negative ones included.
   */
  function BiomeIndex(x: int, y: int, z: int): (index: int)
    ensures 0 <= index < BIOME_COUNT
  {
    ((y / 4) % 64) * 16 + ((z / 4) % 4) * 4 + (x / 4) % 4
  }

  /** The biome cell a coordinate of the chunk falls in. */
  predicate SameCell(x1: int, y1: int, z1: int, x2: int, y2: int, z2: int) {
    x1 / 4 == x2 / 4 && y1 / 4 == y2 / 4 && z1 / 4 == z2 / 4
  }

  /** All coordinates of one 4x4x4 cell share their index. */
  lemma SameCellSameIndex(x1: int, y1: int, z1: int, x2: int, y2: int, z2: int)
    requires SameCell(x1, y1, z1, x2, y2, z2)
    ensures BiomeIndex(x1, y1, z1) == BiomeIndex(x2, y2, z2)
  {
  }

  /** Within the chunk, distinct cells get distinct indices. */
  lemma DistinctCellsDistinctIndices(x1: int, y1: int, z1: int, x2: int, y2: int, z2: int)
    requires InExtent(BlockPos(x1, y1, z1)) && InExtent(BlockPos(x2, y2, z2))
    requires BiomeIndex(x1, y1, z1) == BiomeIndex(x2, y2, z2)
    ensures SameCell(x1, y1, z1, x2, y2, z2)
  {
    CellDigits(x1, y1, z1);
    CellDigits(x2, y2, z2);
    Digits(y1 / 4, z1 / 4, x1 / 4, y2 / 4, z2 / 4, x2 / 4);
  }

  /** Inside the chunk the masks of the index formula cut nothing off. */
  lemma CellDigits(x: int, y: int, z: int)
    requires InExtent(BlockPos(x, y, z))
    ensures 0 <= x / 4 < 4 && 0 <= z / 4 < 4 && 0 <= y / 4 < 64
    ensures BiomeIndex(x, y, z) == (y / 4) * 16 + (z / 4) * 4 + x / 4
  {
    var a, b, c := y / 4, z / 4, x / 4;
    assert a % 64 == a && b % 4 == b && c % 4 == c;
  }

  /** Base-(64, 4, 4) digits are unique. */
  lemma Digits(a1: int, b1: int, c1: int, a2: int, b2: int, c2: int)
    requires 0 <= b1 < 4 && 0 <= b2 < 4 && 0 <= c1 < 4 && 0 <= c2 < 4
    requires a1 * 16 + b1 * 4 + c1 == a2 * 16 + b2 * 4 + c2
    ensures a1 == a2 && b1 == b2 && c1 == c2
  {
  }

  /** The bottom layer of cells, where the save path stores each column's biome. */
  lemma BottomLayerIndex(x: int, z: int)
    requires 0 <= x < CHUNK_SIZE_X && 0 <= z < CHUNK_SIZE_Z
    ensures BiomeIndex(x, 0, z) == (z / 4) * 4 + x / 4 < 16
    ensures BiomeIndex(x, CHUNK_HEIGHT - 1, z) == 1008 + BiomeIndex(x, 0, z)
  {
    CellDigits(x, 0, z);
    CellDigits(x, CHUNK_HEIGHT - 1, z);
    assert (CHUNK_HEIGHT - 1) / 4 == 63;
  }
}
