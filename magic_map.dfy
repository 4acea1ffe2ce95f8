/**
 * The magic map: each update repaints the 128 x 128 colour buffer of the map
 * around the viewer with one colour per biome, sampled from a 512 x 512 grid
 * of generation biomes (four biome samples per pixel, sixteen blocks per
 * pixel). Only the disk of radius 32 pixels around the viewer is repainted;
 * its outer ring, beyond radius 30, is repainted on a checkerboard only. A
 * pixel is written, and reported dirty to the host, only when its byte
 * changes. Feature markers are appended for every repainted pixel that lies
 * in a feature chunk.
 */
module MagicMap {
  import opened JavaInts

  // ----------------------------------------------------------------------
  // Constants of `updateMapData`
  // ----------------------------------------------------------------------

  // The update works with four biome samples and sixteen blocks per pixel (the
  // map's scale is ignored) and a view radius of 512 / 16 = 32 pixels; the
  // arithmetic below writes these numbers out, as the proofs need literals.

  /** The map is 128 x 128 pixels; the colour buffer has one byte per pixel. */
  const ColorCount: int := 128 * 128
  /** The sampled biome grid is (128 * 4) x (128 * 4). */
  const SampleCount: int := 512 * 512

  // ----------------------------------------------------------------------
  // Biomes and their map colours
  // ----------------------------------------------------------------------

  /** A host map colour: the index of a `MaterialColor`. */
  type ColorIndex = i: int | 0 <= i < 64
  type Brightness = b: int | 0 <= b < 4

  /** The host's `MaterialColor` indices that the colour table uses. */
  const GRASS: ColorIndex := 1
  const ICE: ColorIndex := 5
  const FOLIAGE: ColorIndex := 7
  const SNOW: ColorIndex := 8
  const DIRT: ColorIndex := 10
  const WATER: ColorIndex := 12
  const WOOD: ColorIndex := 13
  const ADOBE: ColorIndex := 15
  const LIME: ColorIndex := 19
  const PINK: ColorIndex := 20
  const LIGHT_GRAY: ColorIndex := 22
  const PURPLE: ColorIndex := 24
  const GREEN: ColorIndex := 27
  const DIAMOND: ColorIndex := 31
  const EMERALD: ColorIndex := 33
  const NETHERRACK: ColorIndex := 35

  /** `MapColorBrightness`. */
  datatype MapColorBrightness = MapColorBrightness(color: ColorIndex, brightness: Brightness)

  /** A biome's registry name: the twenty biomes of the colour table, or any other. */
  datatype BiomeName =
    | TwilightForest | DenseTwilightForest | TwilightLake | Stream | TwilightSwamp
    | FireSwamp | Clearing | OakSavanna | Highlands | Thornlands
    | HighlandsCenter | FireflyForest | DarkForest | DarkForestCenter | SnowyForest
    | Glacier | Mushrooms | DeepMushrooms | EnchantedForest | SpookyForest
    | Unlisted(id: string)

  /** A registered biome: its name, and the map colour of its surface's top block. */
  datatype Biome = Biome(registryName: BiomeName, surfaceColor: ColorIndex)

  /** The table `setupBiomeColors` fills. */
  function BiomeColors(): map<BiomeName, MapColorBrightness>
  {
    map[
      TwilightForest := MapColorBrightness(FOLIAGE, 1),
      DenseTwilightForest := MapColorBrightness(FOLIAGE, 0),
      TwilightLake := MapColorBrightness(WATER, 3),
      Stream := MapColorBrightness(WATER, 1),
      TwilightSwamp := MapColorBrightness(DIAMOND, 3),
      FireSwamp := MapColorBrightness(NETHERRACK, 1),
      Clearing := MapColorBrightness(GRASS, 2),
      OakSavanna := MapColorBrightness(GRASS, 0),
      Highlands := MapColorBrightness(DIRT, 0),
      Thornlands := MapColorBrightness(WOOD, 3),
      HighlandsCenter := MapColorBrightness(LIGHT_GRAY, 2),
      FireflyForest := MapColorBrightness(EMERALD, 1),
      DarkForest := MapColorBrightness(GREEN, 3),
      DarkForestCenter := MapColorBrightness(ADOBE, 3),
      SnowyForest := MapColorBrightness(SNOW, 1),
      Glacier := MapColorBrightness(ICE, 1),
      Mushrooms := MapColorBrightness(ADOBE, 0),
      DeepMushrooms := MapColorBrightness(PINK, 0),
      EnchantedForest := MapColorBrightness(LIME, 2),
      SpookyForest := MapColorBrightness(PURPLE, 0)
    ]
  }

  /** The table lists exactly the twenty named biomes. */
  lemma BiomeColorsListsTheNamedBiomes(name: BiomeName)
    ensures name in BiomeColors() <==> !name.Unlisted?
  {
  }

  /**
   * `getMapColorPerBiome` once the table is filled: the table entry of a listed
   * biome, otherwise the colour of the biome's surface block at brightness 1.
   */
  function MapColorOf(b: Biome): (c: MapColorBrightness)
    ensures b.registryName.Unlisted? ==> c == MapColorBrightness(b.surfaceColor, 1)
    ensures !b.registryName.Unlisted? ==> c == BiomeColors()[b.registryName]
  {
    if b.registryName in BiomeColors() then BiomeColors()[b.registryName]
    else MapColorBrightness(b.surfaceColor, 1)
  }

  /** The twenty puts of `setupBiomeColors`, one after the other, add the table to any map. */
  lemma PutsFillTable(m: map<BiomeName, MapColorBrightness>)
    ensures m
            [TwilightForest := MapColorBrightness(FOLIAGE, 1)]
            [DenseTwilightForest := MapColorBrightness(FOLIAGE, 0)]
            [TwilightLake := MapColorBrightness(WATER, 3)]
            [Stream := MapColorBrightness(WATER, 1)]
            [TwilightSwamp := MapColorBrightness(DIAMOND, 3)]
            [FireSwamp := MapColorBrightness(NETHERRACK, 1)]
            [Clearing := MapColorBrightness(GRASS, 2)]
            [OakSavanna := MapColorBrightness(GRASS, 0)]
            [Highlands := MapColorBrightness(DIRT, 0)]
            [Thornlands := MapColorBrightness(WOOD, 3)]
            [HighlandsCenter := MapColorBrightness(LIGHT_GRAY, 2)]
            [FireflyForest := MapColorBrightness(EMERALD, 1)]
            [DarkForest := MapColorBrightness(GREEN, 3)]
            [DarkForestCenter := MapColorBrightness(ADOBE, 3)]
            [SnowyForest := MapColorBrightness(SNOW, 1)]
            [Glacier := MapColorBrightness(ICE, 1)]
            [Mushrooms := MapColorBrightness(ADOBE, 0)]
            [DeepMushrooms := MapColorBrightness(PINK, 0)]
            [EnchantedForest := MapColorBrightness(LIME, 2)]
            [SpookyForest := MapColorBrightness(PURPLE, 0)]
      == m + BiomeColors()
  {
    var puts := m
               [TwilightForest := MapColorBrightness(FOLIAGE, 1)]
               [DenseTwilightForest := MapColorBrightness(FOLIAGE, 0)]
               [TwilightLake := MapColorBrightness(WATER, 3)]
               [Stream := MapColorBrightness(WATER, 1)]
               [TwilightSwamp := MapColorBrightness(DIAMOND, 3)]
               [FireSwamp := MapColorBrightness(NETHERRACK, 1)]
               [Clearing := MapColorBrightness(GRASS, 2)]
               [OakSavanna := MapColorBrightness(GRASS, 0)]
               [Highlands := MapColorBrightness(DIRT, 0)]
               [Thornlands := MapColorBrightness(WOOD, 3)]
               [HighlandsCenter := MapColorBrightness(LIGHT_GRAY, 2)]
               [FireflyForest := MapColorBrightness(EMERALD, 1)]
               [DarkForest := MapColorBrightness(GREEN, 3)]
               [DarkForestCenter := MapColorBrightness(ADOBE, 3)]
               [SnowyForest := MapColorBrightness(SNOW, 1)]
               [Glacier := MapColorBrightness(ICE, 1)]
               [Mushrooms := MapColorBrightness(ADOBE, 0)]
               [DeepMushrooms := MapColorBrightness(PINK, 0)]
               [EnchantedForest := MapColorBrightness(LIME, 2)]
               [SpookyForest := MapColorBrightness(PURPLE, 0)];
    var table := m + BiomeColors();
    assert forall name :: name in puts <==> name in table;
    forall name | name in puts
      ensures puts[name] == table[name]
    {
    }
  }

  /** The static, lazily filled `BIOME_COLORS` table. */
  class BiomeColorTable {
    var entries: map<BiomeName, MapColorBrightness>

    /** The table is either still empty or completely filled. */
    ghost predicate Valid()
      reads this
    {
      entries == map[] || entries == BiomeColors()
    }

    constructor ()
      ensures Valid() && entries == map[]
    {
      entries := map[];
    }

    /** `putBiomeColor`. */
    method PutBiomeColor(name: BiomeName, color: MapColorBrightness)
      modifies this
      ensures entries == old(entries)[name := color]
    {
      entries := entries[name := color];
    }

    /** `setupBiomeColors`: put the twenty entries of the table. */
    method SetupBiomeColors()
      modifies this
      ensures entries == old(entries) + BiomeColors()
    {
      PutBiomeColor(TwilightForest, MapColorBrightness(FOLIAGE, 1));
      PutBiomeColor(DenseTwilightForest, MapColorBrightness(FOLIAGE, 0));
      PutBiomeColor(TwilightLake, MapColorBrightness(WATER, 3));
      PutBiomeColor(Stream, MapColorBrightness(WATER, 1));
      PutBiomeColor(TwilightSwamp, MapColorBrightness(DIAMOND, 3));
      PutBiomeColor(FireSwamp, MapColorBrightness(NETHERRACK, 1));
      PutBiomeColor(Clearing, MapColorBrightness(GRASS, 2));
      PutBiomeColor(OakSavanna, MapColorBrightness(GRASS, 0));
      PutBiomeColor(Highlands, MapColorBrightness(DIRT, 0));
      PutBiomeColor(Thornlands, MapColorBrightness(WOOD, 3));
      PutBiomeColor(HighlandsCenter, MapColorBrightness(LIGHT_GRAY, 2));
      PutBiomeColor(FireflyForest, MapColorBrightness(EMERALD, 1));
      PutBiomeColor(DarkForest, MapColorBrightness(GREEN, 3));
      PutBiomeColor(DarkForestCenter, MapColorBrightness(ADOBE, 3));
      PutBiomeColor(SnowyForest, MapColorBrightness(SNOW, 1));
      PutBiomeColor(Glacier, MapColorBrightness(ICE, 1));
      PutBiomeColor(Mushrooms, MapColorBrightness(ADOBE, 0));
      PutBiomeColor(DeepMushrooms, MapColorBrightness(PINK, 0));
      PutBiomeColor(EnchantedForest, MapColorBrightness(LIME, 2));
      PutBiomeColor(SpookyForest, MapColorBrightness(PURPLE, 0));
      PutsFillTable(old(entries));
    }

    /** `getMapColorPerBiome`: fill the table if it is empty, then look the biome up. */
    method GetMapColorPerBiome(biome: Biome) returns (color: MapColorBrightness)
      requires Valid()
      modifies this
      ensures Valid() && entries == BiomeColors()
      ensures color == MapColorOf(biome)
    {
      if entries == map[] {
        SetupBiomeColors();
      }
      if biome.registryName in entries {
        color := entries[biome.registryName];
      } else {
        color := MapColorBrightness(biome.surfaceColor, 1);
      }
    }
  }

  /** The byte `(byte) (colorIndex * 4 + brightness)` a pixel of that colour holds. */
  function PixelByte(c: MapColorBrightness): int8
  {
    ToInt8(c.color * 4 + c.brightness)
  }

  /** Distinct colour/brightness pairs give distinct bytes, despite the wrap-around of the cast. */
  lemma PixelByteDeterminesColor(c: MapColorBrightness, d: MapColorBrightness)
    requires PixelByte(c) == PixelByte(d)
    ensures c == d
  {
    ToInt8Injective(c.color * 4 + c.brightness, d.color * 4 + d.brightness);
  }

  // ----------------------------------------------------------------------
  // Pixels, the disk and the sample grid
  // ----------------------------------------------------------------------

  datatype Pixel = Pixel(x: int, z: int)

  predicate InMap(p: Pixel)
  {
    0 <= p.x < 128 && 0 <= p.z < 128
  }

  /** The position of pixel p in the colour buffer. */
  function ColorIndexOf(p: Pixel): int
  {
    p.x + p.z * 128
  }

  /** The pixel stored at position i of the colour buffer. */
  function PixelAt(i: int): Pixel
  {
    Pixel(i % 128, i / 128)
  }

  /** Pixels and buffer positions correspond one to one. */
  lemma PixelIndexRoundTrip(p: Pixel)
    requires InMap(p)
    ensures 0 <= ColorIndexOf(p) < ColorCount
    ensures PixelAt(ColorIndexOf(p)) == p
  {
  }

  lemma IndexPixelRoundTrip(i: int)
    requires 0 <= i < ColorCount
    ensures InMap(PixelAt(i))
    ensures ColorIndexOf(PixelAt(i)) == i
  {
  }

  function DistSq(p: Pixel, v: Pixel): int
  {
    (p.x - v.x) * (p.x - v.x) + (p.z - v.z) * (p.z - v.z)
  }

  /** `shouldFuzz`: beyond radius 30 pixels. */
  predicate ShouldFuzz(p: Pixel, v: Pixel)
  {
    DistSq(p, v) > (32 - 2) * (32 - 2)
  }

  /**
   * The pixels an update repaints around viewer pixel v: on the map, strictly
   * inside radius 32, and, in the fuzz ring, only where x + z is odd (that is
   * `(x + z & 1) != 0`, as x + z is not negative on the map).
   */
  predicate Painted(p: Pixel, v: Pixel)
    ensures Painted(p, v) ==> InMap(p) && DistSq(p, v) < 32 * 32
    ensures InMap(p) && DistSq(p, v) <= 30 * 30 ==> Painted(p, v)
  {
    InMap(p) && DistSq(p, v) < 32 * 32 && (!ShouldFuzz(p, v) || (p.x + p.z) % 2 != 0)
  }

  /** A coordinate difference whose square is below 32² is at most 31 in magnitude. */
  lemma CoordinateInsideRadius(d: int)
    requires d * d < 32 * 32
    ensures -31 <= d <= 31
  {
  }

  /**
   * Every repainted pixel lies within 31 pixels of the viewer on both axes, so
   * inside the window the loops walk (x from v.x - 31, z from v.z - 33, both up
   * to v + 31).
   */
  lemma DiskInsideWindow(p: Pixel, v: Pixel)
    requires DistSq(p, v) < 32 * 32
    ensures v.x - 31 <= p.x <= v.x + 31
    ensures v.z - 31 <= p.z <= v.z + 31
  {
    assert (p.x - v.x) * (p.x - v.x) >= 0 && (p.z - v.z) * (p.z - v.z) >= 0;
    CoordinateInsideRadius(p.x - v.x);
    CoordinateInsideRadius(p.z - v.z);
  }

  /** Every pixel of the map within radius 30 of the viewer is repainted. */
  lemma InnerDiskPainted(p: Pixel, v: Pixel)
    requires InMap(p) && DistSq(p, v) <= 30 * 30
    ensures Painted(p, v)
  {
  }

  /** In the fuzz ring only pixels with an odd x + z are repainted. */
  lemma FuzzRingCheckerboard(p: Pixel, v: Pixel)
    requires InMap(p) && 30 * 30 < DistSq(p, v) < 32 * 32
    ensures Painted(p, v) <==> (p.x + p.z) % 2 == 1
  {
  }

  /** The sample of pixel p, its right neighbour and its lower neighbour in the biome grid. */
  function SampleIndex(p: Pixel): int
  {
    p.x * 4 + p.z * 4 * 128 * 4
  }

  function RightSampleIndex(p: Pixel): int
  {
    p.x * 4 + p.z * 4 * 128 * 4 + 1
  }

  function DownSampleIndex(p: Pixel): int
  {
    p.x * 4 + (p.z * 4 + 1) * 128 * 4
  }

  /** The three samples of every map pixel lie inside the 512 x 512 grid. */
  lemma SampleIndicesInRange(p: Pixel)
    requires InMap(p)
    ensures 0 <= SampleIndex(p) < RightSampleIndex(p) < SampleCount
    ensures 0 <= DownSampleIndex(p) < SampleCount
  {
  }

  /** The world the viewer is in, as far as the map update asks about it. */
  datatype World = World(
    dimension: int,
    /** The generation biome at a generation-grid coordinate. */
    biomeAt: (int, int) -> Biome,
    /** `TFFeature.isInFeatureChunk` at block coordinates. */
    isInFeatureChunk: (int, int) -> bool,
    /** The ordinal of `TFFeature.getFeatureAt` at block coordinates. */
    featureAt: (int, int) -> nat)

  /**
   * The host's `getBiomesForGeneration(null, startX, startZ, 512, 512)`: the
   * biome at (startX + i, startZ + j) is stored at position i + j * 512.
   */
  function GenerationBiomes(world: World, startX: int, startZ: int): (s: seq<Biome>)
    ensures |s| == SampleCount
  {
    seq(512 * 512, i => world.biomeAt(startX + i % 512, startZ + i / 512))
  }

  lemma SampleRowColumn(i: int, a: int, b: int)
    requires 0 <= a < 512 && 0 <= b < 512 && i == a + b * 512
    ensures i % 512 == a && i / 512 == b
  {
  }

  /**
   * The samples of pixel p are the generation biomes 4p, 4p + (1, 0) and
   * 4p + (0, 1) from the grid origin: the right sample never wraps to the next row.
   */
  lemma SampleCoordinates(world: World, startX: int, startZ: int, p: Pixel)
    requires InMap(p)
    ensures GenerationBiomes(world, startX, startZ)[SampleIndex(p)] == world.biomeAt(startX + 4 * p.x, startZ + 4 * p.z)
    ensures GenerationBiomes(world, startX, startZ)[RightSampleIndex(p)] == world.biomeAt(startX + 4 * p.x + 1, startZ + 4 * p.z)
    ensures GenerationBiomes(world, startX, startZ)[DownSampleIndex(p)] == world.biomeAt(startX + 4 * p.x, startZ + 4 * p.z + 1)
  {
    SampleRowColumn(SampleIndex(p), 4 * p.x, 4 * p.z);
    SampleRowColumn(RightSampleIndex(p), 4 * p.x + 1, 4 * p.z);
    SampleRowColumn(DownSampleIndex(p), 4 * p.x, 4 * p.z + 1);
  }

  /**
   * The biome a pixel shows: its own sample, unless the right or the lower
   * neighbouring sample is a stream, in which case the stream (so that streams
   * stay visible at this scale).
   */
  function PixelBiome(biomes: seq<Biome>, p: Pixel): (b: Biome)
    requires |biomes| == SampleCount && InMap(p)
    ensures b == biomes[SampleIndex(p)] || b == biomes[RightSampleIndex(p)] || b == biomes[DownSampleIndex(p)]
    ensures biomes[RightSampleIndex(p)].registryName == Stream || biomes[DownSampleIndex(p)].registryName == Stream
      ==> b.registryName == Stream
    ensures !(biomes[RightSampleIndex(p)].registryName == Stream || biomes[DownSampleIndex(p)].registryName == Stream)
      ==> b == biomes[SampleIndex(p)]
  {
    var over := biomes[RightSampleIndex(p)];
    var down := biomes[DownSampleIndex(p)];
    if over.registryName == Stream then over
    else if down.registryName == Stream then down
    else biomes[SampleIndex(p)]
  }

  /** The byte a repainted pixel receives. */
  function PixelColor(biomes: seq<Biome>, p: Pixel): int8
    requires |biomes| == SampleCount && InMap(p)
  {
    PixelByte(MapColorOf(PixelBiome(biomes, p)))
  }

  /** A pixel next to a stream sample shows stream water; any other shows its own sample's colour. */
  lemma StreamsShowAsWater(biomes: seq<Biome>, p: Pixel)
    requires |biomes| == SampleCount && InMap(p)
    ensures biomes[RightSampleIndex(p)].registryName == Stream || biomes[DownSampleIndex(p)].registryName == Stream
      ==> PixelColor(biomes, p) == PixelByte(MapColorBrightness(WATER, 1))
    ensures !(biomes[RightSampleIndex(p)].registryName == Stream || biomes[DownSampleIndex(p)].registryName == Stream)
      ==> PixelColor(biomes, p) == PixelByte(MapColorOf(biomes[SampleIndex(p)]))
  {
  }

  // ----------------------------------------------------------------------
  // What one update does to the colour buffer
  // ----------------------------------------------------------------------

  /** The colour buffer after an update around v over `orig`. */
  function Composited(orig: seq<int8>, biomes: seq<Biome>, v: Pixel): (r: seq<int8>)
    requires |orig| == ColorCount && |biomes| == SampleCount
    ensures |r| == ColorCount
  {
    seq(128 * 128, i requires 0 <= i < 128 * 128 =>
      if Painted(PixelAt(i), v) then PixelColor(biomes, PixelAt(i)) else orig[i])
  }

  /** Pixel p changes in an update over `orig`: it is repainted with a different byte. */
  predicate Repaints(orig: seq<int8>, biomes: seq<Biome>, v: Pixel, p: Pixel)
    requires |orig| == ColorCount && |biomes| == SampleCount
  {
    Painted(p, v) && orig[ColorIndexOf(p)] != PixelColor(biomes, p)
  }

  /** An update repaints the pixels of the disk and leaves every other byte as it was. */
  lemma CompositedAt(orig: seq<int8>, biomes: seq<Biome>, v: Pixel, p: Pixel)
    requires |orig| == ColorCount && |biomes| == SampleCount && InMap(p)
    ensures Painted(p, v) ==> Composited(orig, biomes, v)[ColorIndexOf(p)] == PixelColor(biomes, p)
    ensures !Painted(p, v) ==> Composited(orig, biomes, v)[ColorIndexOf(p)] == orig[ColorIndexOf(p)]
  {
    PixelIndexRoundTrip(p);
  }

  /** A byte an update changes belongs to a repainted pixel. */
  lemma CompositedChangesOnlyPainted(orig: seq<int8>, biomes: seq<Biome>, v: Pixel, i: int)
    requires |orig| == ColorCount && |biomes| == SampleCount && 0 <= i < ColorCount
    ensures Composited(orig, biomes, v)[i] != orig[i] ==> Repaints(orig, biomes, v, PixelAt(i))
  {
    IndexPixelRoundTrip(i);
  }

  /** A second identical update leaves the buffer as the first one left it. */
  lemma CompositeIdempotent(orig: seq<int8>, biomes: seq<Biome>, v: Pixel)
    requires |orig| == ColorCount && |biomes| == SampleCount
    ensures Composited(Composited(orig, biomes, v), biomes, v) == Composited(orig, biomes, v)
  {
    var once := Composited(orig, biomes, v);
    var twice := Composited(once, biomes, v);
    forall i | 0 <= i < ColorCount
      ensures twice[i] == once[i]
    {
    }
  }

  /** ... and marks no pixel dirty. */
  lemma SecondUpdateRepaintsNothing(orig: seq<int8>, biomes: seq<Biome>, v: Pixel, p: Pixel)
    requires |orig| == ColorCount && |biomes| == SampleCount
    ensures !Repaints(Composited(orig, biomes, v), biomes, v, p)
  {
    if InMap(p) {
      CompositedAt(orig, biomes, v, p);
    }
  }

  // ----------------------------------------------------------------------
  // Feature decorations
  // ----------------------------------------------------------------------

  /** `TFMapDecoration(featureOrdinal, mapX, mapZ, rotation)`. */
  datatype Decoration = Decoration(featureId: nat, mapX: int8, mapZ: int8, rotation: int8)

  /** The block coordinate `(center / 16 + pixel - 64) * 16` where a pixel looks for features. */
  function FeatureBlock(center: int, pixel: int): (b: int)
    ensures b % 16 == 0
    ensures 0 <= center ==> b - 16 * (pixel - 64) <= center < b - 16 * (pixel - 64) + 16
    ensures center < 0 ==> b - 16 * (pixel - 64) - 16 < center <= b - 16 * (pixel - 64)
    ensures -16 < b - (center + 16 * (pixel - 64)) < 16
  {
    (TDiv(center, 16) + pixel - 64) * 16
  }

  /**
   * The marker offset `(byte) ((block - center) / 16f * 2f)`. The difference is
   * within 16 * 64 + 15 of zero, so both float operations are exact and the
   * narrowing truncates the quotient (block - center) / 8 toward zero.
   */
  function DecorationOffset(block: int, center: int): (r: int8)
    ensures -1024 <= block - center < 1024 ==> r as int == TDiv(block - center, 8)
    ensures (TDiv(block - center, 8) - r as int) % 256 == 0
  {
    ToInt8(TDiv(block - center, 8))
  }

  predicate HasFeature(world: World, xCenter: int, zCenter: int, p: Pixel)
  {
    world.isInFeatureChunk(FeatureBlock(xCenter, p.x), FeatureBlock(zCenter, p.z))
  }

  function DecorationAt(world: World, xCenter: int, zCenter: int, p: Pixel): Decoration
  {
    var blockX := FeatureBlock(xCenter, p.x);
    var blockZ := FeatureBlock(zCenter, p.z);
    Decoration(world.featureAt(blockX, blockZ), DecorationOffset(blockX, xCenter), DecorationOffset(blockZ, zCenter), 8)
  }

  /**
   * Off the 16-block grid the marker offset can wrap: for centre 15 the block of
   * pixel 0 is -1024, its offset -1039 / 8 truncates to -129, and the byte cast
   * turns that into 127, on the opposite edge of the map.
   */
  lemma DecorationOffsetWrapsOffGrid()
    ensures FeatureBlock(15, 0) == -1024
    ensures TDiv(-1024 - 15, 8) == -129
    ensures DecorationOffset(FeatureBlock(15, 0), 15) as int == 127
  {
  }

  /** The markers of the pixels ps, in order. */
  function DecorationsAt(world: World, xCenter: int, zCenter: int, ps: seq<Pixel>): (ds: seq<Decoration>)
    ensures |ds| == |ps|
    ensures forall i | 0 <= i < |ps| :: ds[i] == DecorationAt(world, xCenter, zCenter, ps[i])
  {
    if ps == [] then []
    else DecorationsAt(world, xCenter, zCenter, ps[..|ps| - 1]) + [DecorationAt(world, xCenter, zCenter, ps[|ps| - 1])]
  }

  /**
   * For a map centre on the 16-block grid, as the host places map centres, a
   * marker sits at twice the pixel's offset from the map centre, and that offset
   * always fits a byte.
   */
  lemma DecorationOffsetOnAlignedCenter(center: int, pixel: int)
    requires center % 16 == 0 && 0 <= pixel < 128
    ensures DecorationOffset(FeatureBlock(center, pixel), center) as int == 2 * (pixel - 64)
  {
    assert TDiv(center, 16) * 16 == center;
    var d := FeatureBlock(center, pixel) - center;
    assert d == (pixel - 64) * 16;
    assert TDiv(d, 8) == 2 * (pixel - 64);
  }

  // ----------------------------------------------------------------------
  // The map data and the update
  // ----------------------------------------------------------------------

  /** The map's data as the update sees it: `MapData` extended by `TFMagicMapData`. */
  class MagicMapData {
    var dimension: int
    var xCenter: int
    var zCenter: int
    /** `colors`: one byte per pixel, pixel (x, z) at x + z * 128. */
    const colors: array<int8>
    /** The pixels reported to the host with `updateMapData(x, z)`, in order. */
    var dirtyPixels: seq<Pixel>
    /** `tfDecorations`. */
    var tfDecorations: seq<Decoration>

    ghost predicate Valid()
      reads this
    {
      colors.Length == ColorCount
    }

    constructor (dimension: int, xCenter: int, zCenter: int)
      ensures Valid() && fresh(colors)
      ensures this.dimension == dimension && this.xCenter == xCenter && this.zCenter == zCenter
      ensures dirtyPixels == [] && tfDecorations == []
    {
      this.dimension := dimension;
      this.xCenter := xCenter;
      this.zCenter := zCenter;
      colors := new int8[128 * 128];
      dirtyPixels := [];
      tfDecorations := [];
    }

    /** The host's `updateMapData(x, z)`: pixel (x, z) must be sent to the map's viewers. */
    method MarkDirty(x: int, z: int)
      modifies this`dirtyPixels
      ensures dirtyPixels == old(dirtyPixels) + [Pixel(x, z)]
    {
      dirtyPixels := dirtyPixels + [Pixel(x, z)];
    }
  }

  /** The viewer: whether it is a player, and the block it stands on (the floor of its position). */
  datatype Viewer = Viewer(isPlayer: bool, blockX: int, blockZ: int)

  /** The map is updated only for a player in the map's own dimension. */
  predicate Active(world: World, viewer: Viewer, dimension: int)
  {
    world.dimension == dimension && viewer.isPlayer
  }

  /**
   * The viewer's pixel: `floor(pos - center) / 16 + 64`, with Java's truncating
   * division, so the 16-block cell of a pixel is rounded toward the map centre.
   */
  function ViewerPixel(viewer: Viewer, xCenter: int, zCenter: int): (v: Pixel)
    ensures var d := viewer.blockX - xCenter;
      (0 <= d ==> 16 * (v.x - 64) <= d < 16 * (v.x - 64) + 16) && (d < 0 ==> 16 * (v.x - 64) - 16 < d <= 16 * (v.x - 64))
    ensures var d := viewer.blockZ - zCenter;
      (0 <= d ==> 16 * (v.z - 64) <= d < 16 * (v.z - 64) + 16) && (d < 0 ==> 16 * (v.z - 64) - 16 < d <= 16 * (v.z - 64))
  {
    Pixel(TDiv(viewer.blockX - xCenter, 16) + 64, TDiv(viewer.blockZ - zCenter, 16) + 64)
  }

  /**
   * The generation-grid coordinate of the biome sample of pixel 0,
   * `(center / 16 - 64) * 4`: four samples per 16-block cell, starting 64 cells
   * before the cell of the centre (rounded toward zero).
   */
  function SampleOrigin(center: int): (s: int)
    ensures s % 4 == 0
    ensures 0 <= center ==> 16 * (s / 4 + 64) <= center < 16 * (s / 4 + 64) + 16
    ensures center < 0 ==> 16 * (s / 4 + 64) - 16 < center <= 16 * (s / 4 + 64)
  {
    (TDiv(center, 16) - 64) * 4
  }

  /** For every Java `int` centre the sample origin is itself a Java `int`: it never overflows. */
  lemma SampleOriginFitsInt(center: int)
    requires -0x8000_0000 <= center < 0x8000_0000
    ensures -0x8000_0000 <= SampleOrigin(center) < 0x8000_0000
  {
  }

  /**
   * The feature block of a map pixel lies within 1040 blocks of the centre, so it
   * fits a Java `int` unless the centre is within about 1040 blocks of the ends
   * of the `int` range.
   */
  lemma FeatureBlockFitsInt(center: int, pixel: int)
    requires -0x8000_0000 + 1040 <= center < 0x8000_0000 - 1040 && 0 <= pixel < 128
    ensures -1040 < FeatureBlock(center, pixel) - center < 1024
    ensures -0x8000_0000 <= FeatureBlock(center, pixel) < 0x8000_0000
  {
  }

  function SampledBiomes(world: World, xCenter: int, zCenter: int): seq<Biome>
  {
    GenerationBiomes(world, SampleOrigin(xCenter), SampleOrigin(zCenter))
  }

  /** Lexicographic order of pixels by x, then z: the order the loops visit them. */
  predicate Before(p: Pixel, q: Pixel)
  {
    p.x < q.x || (p.x == q.x && p.z < q.z)
  }

  predicate LexSorted(ps: seq<Pixel>)
  {
    forall i, j :: 0 <= i < j < |ps| ==> Before(ps[i], ps[j])
  }

  lemma LexSortedAppend(ps: seq<Pixel>, p: Pixel)
    requires LexSorted(ps)
    requires forall q :: q in ps ==> Before(q, p)
    ensures LexSorted(ps + [p])
  {
    forall i, j | 0 <= i < j < |ps| + 1
      ensures Before((ps + [p])[i], (ps + [p])[j])
    {
      if j == |ps| {
        assert ps[i] in ps;
      }
    }
  }

  /** The inputs of one update that stay fixed while it runs. */
  datatype Pass = Pass(world: World, biomes: seq<Biome>, v: Pixel, xCenter: int, zCenter: int,
                       orig: seq<int8>, dirty0: seq<Pixel>, decorations0: seq<Decoration>)
  {
    ghost predicate Valid()
    {
      |orig| == ColorCount && |biomes| == SampleCount
    }
  }

  /** The buffer once every pixel before `c` has been handled: those that are repainted hold their colour. */
  ghost predicate ColorsDone(colors: seq<int8>, pass: Pass, c: Pixel)
  {
    && pass.Valid() && |colors| == ColorCount
    && forall i | 0 <= i < ColorCount ::
         colors[i] == if Painted(PixelAt(i), pass.v) && Before(PixelAt(i), c)
                      then PixelColor(pass.biomes, PixelAt(i)) else pass.orig[i]
  }

  /** The dirty list once every pixel before `c` has been handled: those whose byte changed, in order. */
  ghost predicate MarkedDone(dirty: seq<Pixel>, pass: Pass, marked: seq<Pixel>, c: Pixel)
  {
    && pass.Valid()
    && dirty == pass.dirty0 + marked
    && LexSorted(marked)
    && forall p :: p in marked <==> Repaints(pass.orig, pass.biomes, pass.v, p) && Before(p, c)
  }

  /** The markers once every pixel before `c` has been handled: those of repainted pixels in feature chunks, in order. */
  ghost predicate DecoratedDone(decorations: seq<Decoration>, pass: Pass, decorated: seq<Pixel>, c: Pixel)
  {
    && decorations == pass.decorations0 + DecorationsAt(pass.world, pass.xCenter, pass.zCenter, decorated)
    && LexSorted(decorated)
    && forall p :: p in decorated <==> Painted(p, pass.v) && HasFeature(pass.world, pass.xCenter, pass.zCenter, p) && Before(p, c)
  }

  /** The state of an update once it has handled every pixel before `c` in visiting order. */
  ghost predicate DoneBefore(data: MagicMapData, pass: Pass, marked: seq<Pixel>, decorated: seq<Pixel>, c: Pixel)
    reads data, data.colors
  {
    && data.xCenter == pass.xCenter && data.zCenter == pass.zCenter
    && ColorsDone(data.colors[..], pass, c)
    && MarkedDone(data.dirtyPixels, pass, marked, c)
    && DecoratedDone(data.tfDecorations, pass, decorated, c)
  }

  /** Moving the cursor over pixels that are not repainted changes nothing. */
  lemma DoneMoves(colors: seq<int8>, dirty: seq<Pixel>, decorations: seq<Decoration>, pass: Pass,
                  marked: seq<Pixel>, decorated: seq<Pixel>, c: Pixel, d: Pixel)
    requires ColorsDone(colors, pass, c) && MarkedDone(dirty, pass, marked, c)
    requires DecoratedDone(decorations, pass, decorated, c)
    requires forall p :: Painted(p, pass.v) ==> (Before(p, c) <==> Before(p, d))
    ensures ColorsDone(colors, pass, d) && MarkedDone(dirty, pass, marked, d)
    ensures DecoratedDone(decorations, pass, decorated, d)
  {
  }

  /** Handling map pixel `c` writes its colour if it is repainted. */
  lemma ColorsStep(colors: seq<int8>, pass: Pass, c: Pixel)
    requires ColorsDone(colors, pass, c) && InMap(c)
    ensures ColorsDone(colors[ColorIndexOf(c) := if Painted(c, pass.v) then PixelColor(pass.biomes, c)
                                                else colors[ColorIndexOf(c)]],
                       pass, Pixel(c.x, c.z + 1))
  {
    PixelIndexRoundTrip(c);
    var colors' := colors[ColorIndexOf(c) := if Painted(c, pass.v) then PixelColor(pass.biomes, c)
                                             else colors[ColorIndexOf(c)]];
    forall i | 0 <= i < ColorCount
      ensures colors'[i] == if Painted(PixelAt(i), pass.v) && Before(PixelAt(i), Pixel(c.x, c.z + 1))
                            then PixelColor(pass.biomes, PixelAt(i)) else pass.orig[i]
    {
      IndexPixelRoundTrip(i);
    }
  }

  /** Handling map pixel `c` marks it dirty exactly when its byte changes. */
  lemma MarkedStep(dirty: seq<Pixel>, colors: seq<int8>, pass: Pass, marked: seq<Pixel>, c: Pixel)
    returns (marked': seq<Pixel>)
    requires MarkedDone(dirty, pass, marked, c) && ColorsDone(colors, pass, c) && InMap(c)
    ensures MarkedDone(dirty + if Painted(c, pass.v) && colors[ColorIndexOf(c)] != PixelColor(pass.biomes, c)
                               then [c] else [],
                       pass, marked', Pixel(c.x, c.z + 1))
  {
    PixelIndexRoundTrip(c);
    assert colors[ColorIndexOf(c)] == pass.orig[ColorIndexOf(c)];
    var next := Pixel(c.x, c.z + 1);
    if Repaints(pass.orig, pass.biomes, pass.v, c) {
      LexSortedAppend(marked, c);
      marked' := marked + [c];
      assert dirty + [c] == pass.dirty0 + marked';
    } else {
      marked' := marked;
    }
    forall q
      ensures q in marked' <==> Repaints(pass.orig, pass.biomes, pass.v, q) && Before(q, next)
    {
      assert q in marked' <==> q in marked || (q == c && Repaints(pass.orig, pass.biomes, pass.v, c));
    }
  }

  /** Handling pixel `c` appends its marker exactly when it is repainted and in a feature chunk. */
  lemma DecoratedStep(decorations: seq<Decoration>, pass: Pass, decorated: seq<Pixel>, c: Pixel)
    returns (decorated': seq<Pixel>)
    requires DecoratedDone(decorations, pass, decorated, c)
    ensures DecoratedDone(decorations + if Painted(c, pass.v) && HasFeature(pass.world, pass.xCenter, pass.zCenter, c)
                                        then [DecorationAt(pass.world, pass.xCenter, pass.zCenter, c)] else [],
                          pass, decorated', Pixel(c.x, c.z + 1))
  {
    if Painted(c, pass.v) && HasFeature(pass.world, pass.xCenter, pass.zCenter, c) {
      LexSortedAppend(decorated, c);
      decorated' := decorated + [c];
      assert decorated'[..|decorated'| - 1] == decorated;
    } else {
      decorated' := decorated;
    }
  }

  /** Once every repainted pixel has been handled, the update is complete. */
  lemma DoneAll(colors: seq<int8>, dirty: seq<Pixel>, decorations: seq<Decoration>, pass: Pass,
                marked: seq<Pixel>, decorated: seq<Pixel>, c: Pixel)
    requires ColorsDone(colors, pass, c) && MarkedDone(dirty, pass, marked, c)
    requires DecoratedDone(decorations, pass, decorated, c)
    requires forall p :: Painted(p, pass.v) ==> Before(p, c)
    ensures colors == Composited(pass.orig, pass.biomes, pass.v)
    ensures forall p :: p in marked <==> Repaints(pass.orig, pass.biomes, pass.v, p)
    ensures forall p :: p in decorated <==> Painted(p, pass.v) && HasFeature(pass.world, pass.xCenter, pass.zCenter, p)
  {
    var composited := Composited(pass.orig, pass.biomes, pass.v);
    forall i | 0 <= i < ColorCount
      ensures colors[i] == composited[i]
    {
    }
  }

  /** No pixel of the disk comes before the first pixel of the window. */
  lemma WindowStart(v: Pixel, p: Pixel)
    requires DistSq(p, v) < 32 * 32
    ensures !Before(p, Pixel(v.x - 31, v.z - 33))
  {
    DiskInsideWindow(p, v);
  }

  /** For a pixel of the disk, finishing column x of the window is starting column x + 1. */
  lemma WindowNextColumn(v: Pixel, x: int, p: Pixel)
    requires DistSq(p, v) < 32 * 32
    ensures Before(p, Pixel(x, v.z + 32)) <==> Before(p, Pixel(x + 1, v.z - 33))
  {
    DiskInsideWindow(p, v);
  }

  /** Every pixel of the disk comes before the end of the window. */
  lemma WindowEnd(v: Pixel, p: Pixel)
    requires DistSq(p, v) < 32 * 32
    ensures Before(p, Pixel(v.x + 32, v.z - 33))
  {
    DiskInsideWindow(p, v);
  }

  /** Write a repainted pixel's byte, and mark the pixel dirty, only if the byte changes. */
  method PaintPixel(data: MagicMapData, xPixel: int, zPixel: int, ourPixel: int8)
    requires data.Valid() && InMap(Pixel(xPixel, zPixel))
    modifies data.colors, data`dirtyPixels
    ensures data.colors[..] == old(data.colors[..])[xPixel + zPixel * 128 := ourPixel]
    ensures data.dirtyPixels == old(data.dirtyPixels) +
      if old(data.colors[xPixel + zPixel * 128]) != ourPixel then [Pixel(xPixel, zPixel)] else []
  {
    var orgPixel := data.colors[xPixel + zPixel * 128];
    if orgPixel != ourPixel {
      data.colors[xPixel + zPixel * 128] := ourPixel;
      data.MarkDirty(xPixel, zPixel);
    }
  }

  /** Append the marker of a repainted pixel whose block lies in a feature chunk. */
  method MarkFeature(world: World, data: MagicMapData, xPixel: int, zPixel: int)
    modifies data`tfDecorations
    ensures data.tfDecorations == old(data.tfDecorations) +
      if HasFeature(world, data.xCenter, data.zCenter, Pixel(xPixel, zPixel))
      then [DecorationAt(world, data.xCenter, data.zCenter, Pixel(xPixel, zPixel))] else []
  {
    var worldX := (TDiv(data.xCenter, 16) + xPixel - 64) * 16;
    var worldZ := (TDiv(data.zCenter, 16) + zPixel - 64) * 16;
    if world.isInFeatureChunk(worldX, worldZ) {
      var mapX := ToInt8(TDiv(worldX - data.xCenter, 8));
      var mapZ := ToInt8(TDiv(worldZ - data.zCenter, 8));
      var feature := world.featureAt(worldX, worldZ);
      data.tfDecorations := data.tfDecorations + [Decoration(feature, mapX, mapZ, 8)];
    }
  }

  /**
   * The body of the loops for one pixel of the map: choose its biome and colour,
   * rewrite it and mark it dirty if it is repainted with a different byte, and
   * append a marker if it is repainted and lies in a feature chunk.
   */
  method ComposePixel(table: BiomeColorTable, world: World, data: MagicMapData, biomes: seq<Biome>, v: Pixel, p: Pixel)
    requires table.Valid() && data.Valid()
    requires |biomes| == SampleCount && InMap(p)
    modifies table, data.colors, data`dirtyPixels, data`tfDecorations
    ensures table.Valid() && table.entries == BiomeColors()
    ensures data.colors[..] == old(data.colors[..])[ColorIndexOf(p) :=
      if Painted(p, v) then PixelColor(biomes, p) else old(data.colors[ColorIndexOf(p)])]
    ensures data.dirtyPixels == old(data.dirtyPixels) +
      if Painted(p, v) && old(data.colors[ColorIndexOf(p)]) != PixelColor(biomes, p) then [p] else []
    ensures data.tfDecorations == old(data.tfDecorations) +
      if Painted(p, v) && HasFeature(world, data.xCenter, data.zCenter, p)
      then [DecorationAt(world, data.xCenter, data.zCenter, p)] else []
  {
    var xPixel, zPixel := p.x, p.z;
    var xPixelDist := xPixel - v.x;
    var zPixelDist := zPixel - v.z;
    var shouldFuzz := xPixelDist * xPixelDist + zPixelDist * zPixelDist > (32 - 2) * (32 - 2);
    SampleIndicesInRange(p);
    var biome := biomes[xPixel * 4 + zPixel * 4 * 128 * 4];
    // `updateMapData` replaces the biome by the stream biome, which is the
    // neighbouring sample that was found to be a stream
    var overBiome := biomes[xPixel * 4 + zPixel * 4 * 128 * 4 + 1];
    var downBiome := biomes[xPixel * 4 + (zPixel * 4 + 1) * 128 * 4];
    if overBiome.registryName == Stream {
      biome := overBiome;
    } else if downBiome.registryName == Stream {
      biome := downBiome;
    }
    var colorBrightness := table.GetMapColorPerBiome(biome);
    var mapColor: int := colorBrightness.color;
    var brightness: int := colorBrightness.brightness;
    assert biome == PixelBiome(biomes, p);
    var ourPixel := ToInt8(mapColor * 4 + brightness);
    assert ourPixel == PixelColor(biomes, p);
    assert xPixelDist * xPixelDist + zPixelDist * zPixelDist == DistSq(p, v);
    var painted := zPixel >= 0 && xPixelDist * xPixelDist + zPixelDist * zPixelDist < 32 * 32
       && (!shouldFuzz || (xPixel + zPixel) % 2 != 0);
    assert painted == Painted(p, v);
    if painted {
      PaintPixel(data, xPixel, zPixel, ourPixel);
      MarkFeature(world, data, xPixel, zPixel);
    }
  }

  /** The z-loop of the update for one column `xPixel` of the window. */
  method ComposeColumn(table: BiomeColorTable, world: World, data: MagicMapData, biomes: seq<Biome>, v: Pixel,
                       xPixel: int, ghost pass: Pass, ghost marked: seq<Pixel>, ghost decorated: seq<Pixel>)
    returns (ghost marked': seq<Pixel>, ghost decorated': seq<Pixel>)
    requires table.Valid() && data.Valid()
    requires pass.world == world && pass.biomes == biomes && pass.v == v
    requires DoneBefore(data, pass, marked, decorated, Pixel(xPixel, v.z - 33))
    modifies table, data.colors, data`dirtyPixels, data`tfDecorations
    ensures table.Valid()
    ensures DoneBefore(data, pass, marked', decorated', Pixel(xPixel + 1, v.z - 33))
  {
    marked', decorated' := marked, decorated;
    var zPixel := v.z - 32 - 1;
    while zPixel < v.z + 32
      invariant v.z - 33 <= zPixel <= v.z + 32
      invariant table.Valid()
      invariant DoneBefore(data, pass, marked', decorated', Pixel(xPixel, zPixel))
    {
      var c := Pixel(xPixel, zPixel);
      ghost var colors, dirty, decorations := data.colors[..], data.dirtyPixels, data.tfDecorations;
      if xPixel >= 0 && zPixel >= 0 && xPixel < 128 && zPixel < 128 {
        ComposePixel(table, world, data, biomes, v, c);
        ColorsStep(colors, pass, c);
        marked' := MarkedStep(dirty, colors, pass, marked', c);
        decorated' := DecoratedStep(decorations, pass, decorated', c);
      } else {
        DoneMoves(colors, dirty, decorations, pass, marked', decorated', c, Pixel(xPixel, zPixel + 1));
      }
      zPixel := zPixel + 1;
    }
    forall p | Painted(p, v)
      ensures Before(p, Pixel(xPixel, v.z + 32)) <==> Before(p, Pixel(xPixel + 1, v.z - 33))
    {
      WindowNextColumn(v, xPixel, p);
    }
    DoneMoves(data.colors[..], data.dirtyPixels, data.tfDecorations, pass, marked', decorated',
              Pixel(xPixel, v.z + 32), Pixel(xPixel + 1, v.z - 33));
  }

  /**
   * `updateMapData`: for a player in the map's dimension, repaint the disk
   * around the viewer over the current buffer, mark exactly the pixels whose
   * byte changed as dirty (each once, in visiting order), and append the
   * markers of the repainted pixels in feature chunks (in visiting order).
   * Otherwise nothing changes. `marked` and `decorated` name the pixels that
   * were marked dirty and that received a marker.
   */
  method UpdateMapData(table: BiomeColorTable, world: World, viewer: Viewer, data: MagicMapData)
    returns (ghost marked: seq<Pixel>, ghost decorated: seq<Pixel>)
    requires table.Valid() && data.Valid()
    modifies table, data.colors, data`dirtyPixels, data`tfDecorations
    ensures table.Valid()
    ensures data.dirtyPixels == old(data.dirtyPixels) + marked
    ensures data.tfDecorations == old(data.tfDecorations) + DecorationsAt(world, data.xCenter, data.zCenter, decorated)
    ensures !Active(world, viewer, data.dimension) ==>
      data.colors[..] == old(data.colors[..]) && marked == [] && decorated == [] && table.entries == old(table.entries)
    ensures Active(world, viewer, data.dimension) ==>
      var v := ViewerPixel(viewer, data.xCenter, data.zCenter);
      var biomes := SampledBiomes(world, data.xCenter, data.zCenter);
      && data.colors[..] == Composited(old(data.colors[..]), biomes, v)
      && (forall p :: p in marked <==> Repaints(old(data.colors[..]), biomes, v, p))
      && LexSorted(marked)
      && (forall p :: p in decorated <==> Painted(p, v) && HasFeature(world, data.xCenter, data.zCenter, p))
      && LexSorted(decorated)
  {
    marked, decorated := [], [];
    if world.dimension == data.dimension && viewer.isPlayer {
      var biomesPerPixel := 4;
      var blocksPerPixel := 16;
      var centerX := data.xCenter;
      var centerZ := data.zCenter;
      var viewerX := TDiv(viewer.blockX - centerX, blocksPerPixel) + 64;
      var viewerZ := TDiv(viewer.blockZ - centerZ, blocksPerPixel) + 64;
      var viewRadiusPixels := 512 / blocksPerPixel;
      var startX := (TDiv(centerX, blocksPerPixel) - 64) * biomesPerPixel;
      var startZ := (TDiv(centerZ, blocksPerPixel) - 64) * biomesPerPixel;
      var biomes := GenerationBiomes(world, startX, startZ);
      var v := Pixel(viewerX, viewerZ);
      ghost var pass := Pass(world, biomes, v, centerX, centerZ, data.colors[..], data.dirtyPixels, data.tfDecorations);
      forall p | Painted(p, v)
        ensures !Before(p, Pixel(viewerX - 31, viewerZ - 33))
      {
        WindowStart(v, p);
      }
      var xPixel := viewerX - viewRadiusPixels + 1;
      while xPixel < viewerX + viewRadiusPixels
        invariant viewerX - 31 <= xPixel <= viewerX + 32
        invariant table.Valid()
        invariant DoneBefore(data, pass, marked, decorated, Pixel(xPixel, viewerZ - 33))
      {
        marked, decorated := ComposeColumn(table, world, data, biomes, v, xPixel, pass, marked, decorated);
        xPixel := xPixel + 1;
      }
      forall p | Painted(p, v)
        ensures Before(p, Pixel(viewerX + 32, viewerZ - 33))
      {
        WindowEnd(v, p);
      }
      DoneAll(data.colors[..], data.dirtyPixels, data.tfDecorations, pass, marked, decorated,
              Pixel(viewerX + 32, viewerZ - 33));
      assert v == ViewerPixel(viewer, data.xCenter, data.zCenter);
      assert biomes == SampledBiomes(world, data.xCenter, data.zCenter);
    }
  }
}
