# Twilight Forest: magic map, root corridor and Dark Forest rules in Dafny

This project models three pieces of logic of the Twilight Forest mod. Each is taken
out of the game engine and stated over abstract inputs: a biome is a name plus a
surface colour, the world is a set of uninterpreted queries, and a random generator
is an infinite stream of raw draws.

- **The magic map** (`magic_map.dfy`, module `MagicMap`). `ItemTFMagicMap.updateMapData`
  repaints a 128 x 128 byte colour buffer in place.
  - It works in a pixel window around the viewer and keeps only the disk of radius
    32 pixels. The outer ring beyond radius 30 is repainted only on the pixels whose
    x + z is odd.
  - Each pixel takes the colour of a biome sampled from a 512 x 512 grid of
    generation biomes, with a stream override from the neighbouring samples.
  - A pixel is written, and reported dirty, only when its byte changes. Feature
    markers are appended for every repainted pixel that lies in a feature chunk.
  - The biome colour table (`BIOME_COLORS`, `setupBiomeColors`, `putBiomeColor`,
    `getMapColorPerBiome`, `MapColorBrightness`) is a lazily filled map.
- **The root-hung maze corridor** (`maze_roots.dfy`, module `MazeRoots`).
  `ComponentTFMazeCorridorRoots.generate` fills the piece's 5 x 7 x 5 local block grid.
  Each column it decorates gets dirt above the ceiling, a root strand of random length
  and sometimes gravel on the floor. Every decision is a `nextInt` draw.
- **The Dark Forest biome** (`dark_forest.dfy`, module `DarkForestRules`), `TFBiomeDarkForest`:
  - the integer blend that darkens grass and foliage colours;
  - the choice of tree feature;
  - the monster-spawn gate that opens one time in twenty;
  - the progression penalty, applied every sixtieth tick.

Two support modules hold Java semantics: `JavaInts` (`java_ints.dfy`) covers truncating
`/` and `%` and the `(byte)` cast, and `Randomness` (`randomness.dfy`) covers
`java.util.Random.nextInt`.

The stateful code is modelled imperatively:
- The map's colour buffer is an `array<int8>` in a `MagicMapData` class. Its dirty-pixel
  log and decoration list are `seq` fields.
- The colour table is a class around a `map`.
- The maze grid is an `array3<Block>`.
- The random generator is a class whose draw counter advances.
- The Dark Forest biome and the player are classes.

Each method is proved against specification functions, and those functions carry the
lemmas:
- The map update's result is `Composited(old buffer, biomes, viewer pixel)`. Its dirty
  log lists exactly the pixels whose byte changed, in visiting order.
- The maze generator's result is given column by column by `PlanAt`/`PlacedBlock` over
  the consumed draws.

Integer semantics are written out:
- `TDiv`/`JRem` model Java's truncating division and remainder, used where operands can
  be negative: the viewer pixel, the sample origin, the feature block, the tick check.
- `ToInt8` models the `(byte)` cast, which wraps modulo 256.
- The colour blend works on `bv32`.

## Model

| member | source | states |
|---|---|---|
| JavaInts.TDiv | src/main/java/twilightforest/item/ItemTFMagicMap.java:106-107 | Java `/` by a positive divisor truncates toward zero: the quotient bounds the dividend from below for non-negative and from above for negative dividends |
| JavaInts.JRem | src/main/java/twilightforest/biomes/TFBiomeDarkForest.java:109 | Java `%`: dividend = quotient * divisor + remainder, with the remainder taking the sign of the dividend |
| JavaInts.ToInt8 | src/main/java/twilightforest/item/ItemTFMagicMap.java:133 | the `(byte)` cast yields the byte congruent to the value modulo 256, and keeps values that already fit |
| JavaInts.ToInt8Injective | src/main/java/twilightforest/item/ItemTFMagicMap.java:133 | the cast maps 0..255 to 256 distinct bytes |
| Randomness.Draw | src/main/java/twilightforest/biomes/TFBiomeDarkForest.java:92 | the k-th draw of `nextInt(bound)` lies in [0, bound) |
| Randomness.Random.NextInt | src/main/java/twilightforest/biomes/TFBiomeDarkForest.java:92 | `nextInt(bound)` returns the draw at the current position and advances the generator by exactly one draw |
| MagicMap.BiomeColorsListsTheNamedBiomes | src/main/java/twilightforest/item/ItemTFMagicMap.java:170-191 | the table holds an entry for exactly the twenty named biomes and for no other biome |
| MagicMap.MapColorOf | src/main/java/twilightforest/item/ItemTFMagicMap.java:158-168 | a listed biome maps to its table entry; any other biome maps to its surface block's colour at brightness 1 |
| MagicMap.PutsFillTable | src/main/java/twilightforest/item/ItemTFMagicMap.java:170-191 | the twenty puts, applied to any map in order, yield that map overridden by the table |
| MagicMap.BiomeColorTable.constructor | src/main/java/twilightforest/item/ItemTFMagicMap.java:27 | the table starts out empty |
| MagicMap.BiomeColorTable.PutBiomeColor | src/main/java/twilightforest/item/ItemTFMagicMap.java:193-195 | a put sets the biome's entry and keeps every other entry |
| MagicMap.BiomeColorTable.SetupBiomeColors | src/main/java/twilightforest/item/ItemTFMagicMap.java:170-190 | after setup the table is the old table overridden by the twenty fixed entries |
| MagicMap.BiomeColorTable.GetMapColorPerBiome | src/main/java/twilightforest/item/ItemTFMagicMap.java:158-168 | the table is filled the first time it is found empty and is complete afterwards; the result is the table entry or the surface-colour fallback |
| MagicMap.PixelByteDeterminesColor | src/main/java/twilightforest/item/ItemTFMagicMap.java:133 | the pixel byte `(byte)(colour * 4 + brightness)` determines colour and brightness, despite the wrap-around |
| MagicMap.PixelIndexRoundTrip | src/main/java/twilightforest/item/ItemTFMagicMap.java:132-136 | every map pixel has a buffer position `x + z * 128` in range, and that position gives the pixel back |
| MagicMap.IndexPixelRoundTrip | src/main/java/twilightforest/item/ItemTFMagicMap.java:132-136 | every buffer position belongs to a map pixel whose position it is |
| MagicMap.Painted | src/main/java/twilightforest/item/ItemTFMagicMap.java:131 | a repainted pixel is on the map and strictly inside radius 32 of the viewer; every map pixel within radius 30 is repainted |
| MagicMap.DiskInsideWindow | src/main/java/twilightforest/item/ItemTFMagicMap.java:110-111 | every pixel at squared distance below 32² lies within 31 pixels of the viewer on both axes, so inside the loop window |
| MagicMap.InnerDiskPainted | src/main/java/twilightforest/item/ItemTFMagicMap.java:115-131 | every map pixel within radius 30 of the viewer is repainted |
| MagicMap.FuzzRingCheckerboard | src/main/java/twilightforest/item/ItemTFMagicMap.java:131 | a map pixel in the fuzz ring (squared distance above 30², below 32²) is repainted if and only if x + z is odd |
| MagicMap.SampleIndicesInRange | src/main/java/twilightforest/item/ItemTFMagicMap.java:117-121 | the sample, right-neighbour and lower-neighbour indices of every map pixel lie inside the 512 x 512 biome array |
| MagicMap.GenerationBiomes | src/main/java/twilightforest/item/ItemTFMagicMap.java:108 | the sampled biome array has 512 x 512 entries |
| MagicMap.ViewerPixel | src/main/java/twilightforest/item/ItemTFMagicMap.java:101-102 | the viewer's block offset from the centre lies in the 16-block cell of its pixel, rounded toward the centre on each axis |
| MagicMap.SampleOrigin | src/main/java/twilightforest/item/ItemTFMagicMap.java:106-107 | the sample origin is a multiple of 4, four samples per 16-block cell, starting 64 cells before the centre's cell (rounded toward zero) |
| MagicMap.SampleOriginFitsInt | src/main/java/twilightforest/item/ItemTFMagicMap.java:106-107 | for every Java `int` centre the sample origin is a Java `int` |
| MagicMap.SampleCoordinates | src/main/java/twilightforest/item/ItemTFMagicMap.java:106-121 | a pixel's three samples are the generation biomes at 4p, 4p + (1, 0) and 4p + (0, 1) from the sample origin; the right neighbour never wraps to the next row |
| MagicMap.PixelBiome | src/main/java/twilightforest/item/ItemTFMagicMap.java:117-124 | the pixel's biome is one of its three samples: a stream when the right or lower sample is one, its own sample otherwise |
| MagicMap.StreamsShowAsWater | src/main/java/twilightforest/item/ItemTFMagicMap.java:119-133 | a pixel whose right or lower sample is a stream gets the stream's byte (water, brightness 1); any other pixel gets its own sample's byte |
| MagicMap.Composited | src/main/java/twilightforest/item/ItemTFMagicMap.java:110-137 | the buffer after an update has one byte per pixel |
| MagicMap.CompositedAt | src/main/java/twilightforest/item/ItemTFMagicMap.java:131-137 | after an update a repainted pixel holds its computed byte and every other pixel holds its old byte |
| MagicMap.CompositedChangesOnlyPainted | src/main/java/twilightforest/item/ItemTFMagicMap.java:131-138 | a byte an update changes belongs to a pixel that is repainted (on the map, in the disk, not fuzzed out) with a different byte |
| MagicMap.CompositeIdempotent | src/main/java/twilightforest/item/ItemTFMagicMap.java:131-138 | a second identical update leaves the buffer unchanged |
| MagicMap.SecondUpdateRepaintsNothing | src/main/java/twilightforest/item/ItemTFMagicMap.java:135-138 | after an update, an identical update marks no pixel dirty |
| MagicMap.FeatureBlock | src/main/java/twilightforest/item/ItemTFMagicMap.java:141-142 | the probed block is on the 16-block grid, 16 (pixel - 64) past the centre's 16-block cell, with the centre / 16 rounded toward zero as in Java |
| MagicMap.FeatureBlockFitsInt | src/main/java/twilightforest/item/ItemTFMagicMap.java:141-142 | the probed block lies within 1040 blocks of the centre, so it is a Java `int` unless the centre is within 1040 blocks of the ends of the range |
| MagicMap.DecorationOffset | src/main/java/twilightforest/item/ItemTFMagicMap.java:144-145 | the marker offset is the block offset / 8 rounded toward zero, cast to a byte: exact for offsets within ±1024, congruent modulo 256 always |
| MagicMap.DecorationOffsetWrapsOffGrid | src/main/java/twilightforest/item/ItemTFMagicMap.java:141-145 | for a centre off the 16-block grid (15), the marker of pixel 0 wraps to byte 127 instead of -129 |
| MagicMap.DecorationsAt | src/main/java/twilightforest/item/ItemTFMagicMap.java:148 | one marker per given pixel, in order: the i-th is the marker of the i-th pixel (the update passes exactly the repainted pixels in feature chunks) |
| MagicMap.DecorationOffsetOnAlignedCenter | src/main/java/twilightforest/item/ItemTFMagicMap.java:141-145 | for a map centre on the 16-block grid, a marker sits at twice the pixel's offset from pixel 64, which always fits a byte |
| MagicMap.MagicMapData.MarkDirty | src/main/java/twilightforest/item/ItemTFMagicMap.java:137 | `updateMapData(x, z)` appends the pixel to the dirty log |
| MagicMap.WindowStart | src/main/java/twilightforest/item/ItemTFMagicMap.java:110-111 | no pixel of the disk precedes the first pixel of the window in visiting order |
| MagicMap.WindowNextColumn | src/main/java/twilightforest/item/ItemTFMagicMap.java:111 | finishing the z range of one column reaches every pixel of the disk in that column |
| MagicMap.WindowEnd | src/main/java/twilightforest/item/ItemTFMagicMap.java:110 | every pixel of the disk precedes the end of the window |
| MagicMap.DoneMoves | src/main/java/twilightforest/item/ItemTFMagicMap.java:110-112 | skipping pixels that are not repainted preserves the loop invariant |
| MagicMap.ColorsStep | src/main/java/twilightforest/item/ItemTFMagicMap.java:131-137 | handling one map pixel extends the invariant on the buffer by that pixel |
| MagicMap.MarkedStep | src/main/java/twilightforest/item/ItemTFMagicMap.java:135-138 | handling one map pixel extends the dirty log by that pixel exactly when its byte changes, keeping the log sorted |
| MagicMap.DecoratedStep | src/main/java/twilightforest/item/ItemTFMagicMap.java:141-150 | handling one pixel appends its marker exactly when it is repainted and in a feature chunk, keeping the order |
| MagicMap.DoneAll | src/main/java/twilightforest/item/ItemTFMagicMap.java:110-154 | once the window is done, the buffer is the composited buffer, and the dirty log and markers cover exactly the changed and the feature pixels |
| MagicMap.PaintPixel | src/main/java/twilightforest/item/ItemTFMagicMap.java:132-138 | the pixel's byte is written, and the pixel marked dirty, only when the byte differs |
| MagicMap.MarkFeature | src/main/java/twilightforest/item/ItemTFMagicMap.java:141-150 | the pixel's marker (feature, offsets, rotation 8) is appended exactly when its block is in a feature chunk |
| MagicMap.ComposePixel | src/main/java/twilightforest/item/ItemTFMagicMap.java:112-151 | one map pixel: its byte becomes its computed byte if repainted; it is marked dirty iff repainted with a different byte; its marker is appended iff repainted in a feature chunk; the colour table ends complete |
| MagicMap.ComposeColumn | src/main/java/twilightforest/item/ItemTFMagicMap.java:111-153 | the z loop carries the loop invariant from one column of the window to the next |
| MagicMap.UpdateMapData | src/main/java/twilightforest/item/ItemTFMagicMap.java:95-156 | off-dimension or for a non-player nothing changes; otherwise the buffer becomes the composited buffer, the pixels marked dirty are exactly those whose byte changed (sorted by x then z), and markers are appended for exactly the repainted pixels in feature chunks |
| MazeRoots.PlanColumn | src/main/java/twilightforest/structures/minotaurmaze/ComponentTFMazeCorridorRoots.java:28-46 | a column is decorated iff its `nextInt(x + 2)` draw is positive; the root length is at most 5; upper gravel implies lower gravel; column 1 never gets gravel; it consumes 1, 3 or 4 draws |
| MazeRoots.ColumnStart | src/main/java/twilightforest/structures/minotaurmaze/ComponentTFMazeCorridorRoots.java:26-29 | the draws before column (x, z) number between one and four per earlier column |
| MazeRoots.PlacedBlock | src/main/java/twilightforest/structures/minotaurmaze/ComponentTFMazeCorridorRoots.java:30-46 | a plain column keeps its blocks; a decorated one places only gravel, roots or dirt, never above y = 6, and for a root length of at most 5 never below y = 1 |
| MazeRoots.DirtAboveCeiling | src/main/java/twilightforest/structures/minotaurmaze/ComponentTFMazeCorridorRoots.java:33 | a decorated column has dirt at y = 6 |
| MazeRoots.RootStrandSpan | src/main/java/twilightforest/structures/minotaurmaze/ComponentTFMazeCorridorRoots.java:30-38 | roots occupy exactly y in [6 - length, 6) not covered by gravel, never y = 0 or y = 6 |
| MazeRoots.GravelReplacesRoots | src/main/java/twilightforest/structures/minotaurmaze/ComponentTFMazeCorridorRoots.java:36-45 | where gravel is placed it is the final block, also over roots |
| MazeRoots.GravelStacksFromTheFloor | src/main/java/twilightforest/structures/minotaurmaze/ComponentTFMazeCorridorRoots.java:41-46 | new gravel at y = 2 comes with gravel at y = 1; column x = 1 never receives gravel |
| MazeRoots.DrawsTaken | src/main/java/twilightforest/structures/minotaurmaze/ComponentTFMazeCorridorRoots.java:26-47 | `generate` consumes between 20 and 80 draws |
| MazeRoots.SetBlockState | src/main/java/twilightforest/structures/minotaurmaze/ComponentTFMazeCorridorRoots.java:33 | a placement changes only its own cell, and only inside the clipping box |
| MazeRoots.HangRoots | src/main/java/twilightforest/structures/minotaurmaze/ComponentTFMazeCorridorRoots.java:33-38 | dirt at y = 6 and roots on [6 - length, 6) of one column, inside the clipping box; nothing else changes |
| MazeRoots.DecorateColumn | src/main/java/twilightforest/structures/minotaurmaze/ComponentTFMazeCorridorRoots.java:28-47 | one column ends as `PlacedBlock` of its drawn plan over its old blocks, and the generator advances past the column's draws |
| MazeRoots.DecorateSlice | src/main/java/twilightforest/structures/minotaurmaze/ComponentTFMazeCorridorRoots.java:27-49 | the five columns of one x are decorated in z order from consecutive draws |
| MazeRoots.Generate | src/main/java/twilightforest/structures/minotaurmaze/ComponentTFMazeCorridorRoots.java:25-52 | returns true; each column with x ≥ 1 ends as its planned blocks inside the clipping box; column x = 0 and everything outside the box are unchanged |
| DarkForestRules.Blend | src/main/java/twilightforest/biomes/TFBiomeDarkForest.java:77 | the blend is the per-channel average of each low-bit-cleared input channel with 0x1E, 0x0E and 0x4E, with no carry between channels, and fits 24 bits |
| DarkForestRules.GrassColor | src/main/java/twilightforest/biomes/TFBiomeDarkForest.java:74-78 | each channel of the grass colour is the average of the looked-up colour's channel with the tint `0x1E0E4E`'s channel |
| DarkForestRules.FoliageColor | src/main/java/twilightforest/biomes/TFBiomeDarkForest.java:81-85 | each channel of the foliage colour is the average of the looked-up colour's channel with the tint `0x1E0E4E`'s channel |
| DarkForestRules.BlendIgnoresHighBits | src/main/java/twilightforest/biomes/TFBiomeDarkForest.java:77 | bits above 0xFFFFFF of the input do not affect the blend |
| DarkForestRules.BlendChannelBounds | src/main/java/twilightforest/biomes/TFBiomeDarkForest.java:84 | the blended channels lie in [0x0F, 0x8E], [0x07, 0x86] and [0x27, 0xA6] |
| DarkForestRules.RandomTreeFeature | src/main/java/twilightforest/biomes/TFBiomeDarkForest.java:60-71 | shrub iff `nextInt(5)` is 0; birch iff it is not and `nextInt(8)` is 0; otherwise the default tree; the second draw is taken only when the first is not 0 |
| DarkForestRules.TreeChoiceUsesOnlyConsumedDraws | src/main/java/twilightforest/biomes/TFBiomeDarkForest.java:61-66 | streams that agree on the consumed draws choose the same tree |
| DarkForestRules.GatedMonsterList | src/main/java/twilightforest/biomes/TFBiomeDarkForest.java:92 | the result is the real list or empty, and the real list (when non-empty) exactly on a zero draw |
| DarkForestRules.OneDrawInTwentyOpensTheGate | src/main/java/twilightforest/biomes/TFBiomeDarkForest.java:90-92 | exactly one of the twenty possible draws returns monsters |
| DarkForestRules.DarkForestBiome.constructor | src/main/java/twilightforest/biomes/TFBiomeDarkForest.java:27 | allocates a fresh private generator over the given raw stream, at position 0, and keeps the given monster and base spawn lists |
| DarkForestRules.DarkForestBiome.GetSpawns | src/main/java/twilightforest/biomes/TFBiomeDarkForest.java:89-95 | for monsters, one draw of the biome's generator gates the real list; other classifications get the base list and leave the generator alone |
| DarkForestRules.DarkForestBiome.EnforceProgression | src/main/java/twilightforest/biomes/TFBiomeDarkForest.java:108-113 | exactly when the check is due, the player gets blindness for 100 ticks and the hint attempt is made; otherwise the player is unchanged |
| DarkForestRules.Player.AddPotionEffect | src/main/java/twilightforest/biomes/TFBiomeDarkForest.java:110 | the effect is appended to the player's effects |
| DarkForestRules.ProgressionDue | src/main/java/twilightforest/biomes/TFBiomeDarkForest.java:109 | the check is due iff on the server and the tick count is a multiple of 60, including negative counts |
| DarkForestRules.ProgressionOncePerSixtyTicks | src/main/java/twilightforest/biomes/TFBiomeDarkForest.java:109 | a due check is on the server, is not due again in the next 59 ticks, and is due again 60 ticks later |

## Left out

- Host queries are inputs:
  - the biome provider's `getBiomesForGeneration` is a function from grid coordinates to biomes;
  - `TFFeature.isInFeatureChunk`/`getFeatureAt` are uninterpreted functions of block coordinates;
  - the viewer's position is the block it stands on.
- The viewer pixel uses `floor(x) - centre`, which equals `floor(x - centre)` for the integer map centre. Floating-point precision at huge coordinates is not modelled.
- The marker offset `(byte)((block - centre) / 16f * 2f)` is modelled as `(byte)` of the truncated integer quotient by 8. This is exact because the difference never exceeds 16 * 64 + 15 in magnitude. The host places map centres on the 16-block grid; for other centres the byte cast can wrap (`DecorationOffsetWrapsOffGrid`).
- The sample origin `(centre / 16 - 64) * 4` never overflows a Java `int` (`SampleOriginFitsInt`). The feature block `(centre / 16 + x - 64) * 16` overflows only for centres within about 1040 blocks of the ends of the `int` range (`FeatureBlockFitsInt` shows it fits elsewhere); the model uses unbounded integers there and does not model that wrap-around.
- The colour of a biome's surface block (`getSurfaceBuilderConfig().getTop().getMaterialColor`) is a field of the biome. The `MaterialColor` indices are the host's values.
- The stream override sets the pixel's biome to the stream biome. The model takes the neighbouring sample that is the stream, which is that same registered biome.
- `tfDecorations` is modelled as a list: each marker is appended in order and duplicates are kept. Its declared type is in TFMagicMapData, which is not part of this model; a container that drops duplicates would hold fewer markers than the model.
- The host's `updateMapData(x, z)` is modelled as an append of the pixel to a dirty log (`MagicMapData.MarkDirty`); what the host does with it (sending map updates to clients) is not part of this model.
- `setupNewMap`, `loadMapData`, `getMapData`, the empty maze map item and the client proxy are host registration and persistence, and are not part of this model.
- The temperature/humidity clamp and the grass/foliage texture lookup are floating point. The looked-up colour is an input of `GrassColor`/`FoliageColor`.
- `java.util.Random`'s algorithm and the fixed seed 53439 of the Dark Forest's monster generator are not modelled. A generator is any stream of raw draws, so every sequence of outcomes is covered.
- The constructor's decorator settings and the contents of the spawn list are host configuration. The list is a parameter of the biome.
- `trySpawnHintMonster` is base-biome code; the model only reports that it was attempted. The advancement check that decides whether `enforceProgression` runs at all is also left out. Effects are recorded as applied, in order, without the host's merging of effects.
- The rotation and mirroring that `setBlockState` applies to local coordinates are host behaviour. The clipping box is an uninterpreted predicate on local coordinates.
- MagicMap.UpdateMapData: states only that the colour table stays empty or complete, not that an active update always completes it. An update whose window misses the map never looks a colour up.
