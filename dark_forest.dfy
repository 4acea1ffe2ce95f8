/**
 * The rules of the Dark Forest biome: the darkened grass and foliage tint,
 * the choice of tree feature, the gate that lets monsters spawn only one
 * time in twenty, and the periodic progression penalty for a player who has
 * not yet earned the right to be there.
 */
module DarkForestRules {
  import opened JavaInts
  import opened Randomness

  // ----------------------------------------------------------------------
  // Grass and foliage colour
  // ----------------------------------------------------------------------

  /** The 8-bit channel of a packed 0xRRGGBB colour that starts at bit `shift`. */
  function Channel(c: bv32, shift: bv32): bv32
    requires shift <= 16
  {
    (c >> shift) & 0xFF
  }

  /** The average of a channel, with its lowest bit cleared, and a tint channel. */
  function AverageChannel(channel: bv32, tint: bv32): bv32
    requires channel <= 0xFF && tint <= 0xFF
  {
    ((channel & 0xFE) + tint) / 2
  }

  /** Three 8-bit channels packed as 0xRRGGBB. */
  function PackRgb(red: bv32, green: bv32, blue: bv32): bv32
    requires red <= 0xFF && green <= 0xFF && blue <= 0xFF
  {
    (red << 16) | (green << 8) | blue
  }

  /**
   * The darkening blend of `getGrassColor`/`getFoliageColor`, applied to the
   * colour the host's texture lookup returned: clearing each channel's low
   * bit keeps the sum of two channels inside eight bits, so the single
   * addition and halving averages every channel with the tint 0x1E0E4E
   * without any carry between channels. The Java `int` operands are non-negative
   * here (the mask clears the sign bit), so the unsigned `/ 2` is Java's.
   */
  function Blend(c: bv32): (r: bv32)
    ensures r == PackRgb(AverageChannel(Channel(c, 16), 0x1E),
                         AverageChannel(Channel(c, 8), 0x0E),
                         AverageChannel(Channel(c, 0), 0x4E))
    ensures r < 0x100_0000
  {
    ((c & 0xFEFEFE) + 0x1E0E4E) / 2
  }

  /** `getGrassColor`: the blend of the looked-up grass colour. */
  function GrassColor(lookedUp: bv32): (r: bv32)
    ensures r == PackRgb(AverageChannel(Channel(lookedUp, 16), 0x1E),
                         AverageChannel(Channel(lookedUp, 8), 0x0E),
                         AverageChannel(Channel(lookedUp, 0), 0x4E))
  {
    Blend(lookedUp)
  }

  /** `getFoliageColor`: the blend of the looked-up foliage colour. */
  function FoliageColor(lookedUp: bv32): (r: bv32)
    ensures r == PackRgb(AverageChannel(Channel(lookedUp, 16), 0x1E),
                         AverageChannel(Channel(lookedUp, 8), 0x0E),
                         AverageChannel(Channel(lookedUp, 0), 0x4E))
  {
    Blend(lookedUp)
  }

  /** Bits above the 24 colour bits of the input do not reach the result. */
  lemma BlendIgnoresHighBits(c: bv32)
    ensures Blend(c) == Blend(c & 0xFF_FFFF)
  {
  }

  /** Each blended channel stays at or below the average of 0xFE and its tint. */
  lemma BlendChannelBounds(c: bv32)
    ensures Channel(Blend(c), 16) <= 0x8E
    ensures Channel(Blend(c), 8) <= 0x86
    ensures Channel(Blend(c), 0) <= 0xA6
    ensures Channel(Blend(c), 16) >= 0x0F
    ensures Channel(Blend(c), 8) >= 0x07
    ensures Channel(Blend(c), 0) >= 0x27
  {
  }

  // ----------------------------------------------------------------------
  // Tree choice
  // ----------------------------------------------------------------------

  datatype TreeFeature = Shrub | Birch | DefaultTree

  /** The tree chosen from the draws starting at `pos`, and the position after them. */
  datatype TreeChoice = TreeChoice(tree: TreeFeature, next: nat)

  /**
   * `getRandomTreeFeature`: one time in five a jungle-log shrub; otherwise one
   * time in eight a birch; otherwise the default tree. The second draw is
   * taken only when the first one did not pick the shrub.
   */
  function RandomTreeFeature(raw: nat -> nat, pos: nat): (r: TreeChoice)
    ensures r.tree == Shrub <==> Draw(raw, pos, 5) == 0
    ensures r.tree == Birch <==> Draw(raw, pos, 5) != 0 && Draw(raw, pos + 1, 8) == 0
    ensures r.next == pos + 1 <==> r.tree == Shrub
    ensures r.next == pos + 2 <==> r.tree != Shrub
  {
    if Draw(raw, pos, 5) == 0 then TreeChoice(Shrub, pos + 1)
    else if Draw(raw, pos + 1, 8) == 0 then TreeChoice(Birch, pos + 2)
    else TreeChoice(DefaultTree, pos + 2)
  }

  /**
   * The choice depends only on the draws it consumes: two streams that agree on
   * those draws choose the same tree.
   */
  lemma TreeChoiceUsesOnlyConsumedDraws(raw: nat -> nat, other: nat -> nat, pos: nat)
    requires forall k :: pos <= k < RandomTreeFeature(raw, pos).next ==> raw(k) == other(k)
    ensures RandomTreeFeature(other, pos) == RandomTreeFeature(raw, pos)
  {
    assert raw(pos) == other(pos);
    if Draw(raw, pos, 5) != 0 {
      assert raw(pos + 1) == other(pos + 1);
    }
  }

  // ----------------------------------------------------------------------
  // Monster spawns
  // ----------------------------------------------------------------------

  datatype EntityClassification = Monster | Creature | Ambient | WaterCreature | Misc

  datatype SpawnListEntry = SpawnListEntry(entityType: string, weight: nat, minGroupCount: nat, maxGroupCount: nat)

  const MonsterSpawnRate: nat := 20

  /** The outcome of one monster-gate draw: the real list only on a zero draw. */
  function GatedMonsterList(draw: nat, monsters: seq<SpawnListEntry>): (r: seq<SpawnListEntry>)
    requires draw < MonsterSpawnRate
    ensures r == monsters || r == []
    ensures monsters != [] ==> (r == monsters <==> draw == 0)
  {
    if draw == 0 then monsters else []
  }

  /** Of the twenty equally likely draws, exactly one lets monsters through. */
  lemma OneDrawInTwentyOpensTheGate(monsters: seq<SpawnListEntry>)
    requires monsters != []
    ensures forall d :: 0 <= d < MonsterSpawnRate ==> (GatedMonsterList(d, monsters) != [] <==> d == 0)
  {
  }

  class DarkForestBiome {
    /** `monsterRNG`, the biome's own private generator (seeded with 53439 in the mod). */
    const monsterRng: Random
    /** The monster list the constructor configured. */
    const spawnableMonsterList: seq<SpawnListEntry>
    /** What the base biome's `getSpawns` returns for each classification. */
    const baseSpawns: EntityClassification -> seq<SpawnListEntry>

    /** A new biome allocates its own generator over the raw stream `monsterDraws`. */
    constructor (monsterDraws: nat -> nat, spawnableMonsterList: seq<SpawnListEntry>,
                 baseSpawns: EntityClassification -> seq<SpawnListEntry>)
      ensures fresh(monsterRng)
      ensures monsterRng.raw == monsterDraws && monsterRng.consumed == 0
      ensures this.spawnableMonsterList == spawnableMonsterList
      ensures this.baseSpawns == baseSpawns
    {
      monsterRng := new Random(monsterDraws);
      this.spawnableMonsterList := spawnableMonsterList;
      this.baseSpawns := baseSpawns;
    }

    /**
     * `getSpawns`: for monsters, one draw of the biome's generator decides between
     * the real list and an empty one; every other classification gets the base
     * biome's list and leaves the generator alone.
     */
    method GetSpawns(creatureType: EntityClassification) returns (list: seq<SpawnListEntry>)
      modifies monsterRng
      ensures creatureType == Monster ==>
        && monsterRng.consumed == old(monsterRng.consumed) + 1
        && list == GatedMonsterList(Draw(monsterRng.raw, old(monsterRng.consumed), MonsterSpawnRate), spawnableMonsterList)
      ensures creatureType != Monster ==>
        && monsterRng.consumed == old(monsterRng.consumed)
        && list == baseSpawns(creatureType)
    {
      if creatureType == Monster {
        var draw := monsterRng.NextInt(MonsterSpawnRate);
        list := if draw == 0 then spawnableMonsterList else [];
        return;
      }
      list := baseSpawns(creatureType);
    }

    /**
     * `enforceProgression`: on the server, every sixtieth tick of the player's
     * life, blind the player for 100 ticks and try to spawn a hint monster (that
     * attempt is the base biome's code; `hintAttempted` reports that it was made).
     */
    method EnforceProgression(player: Player, worldIsRemote: bool) returns (hintAttempted: bool)
      modifies player
      ensures hintAttempted == ProgressionDue(worldIsRemote, player.ticksExisted)
      ensures player.ticksExisted == old(player.ticksExisted)
      ensures player.appliedEffects ==
        if hintAttempted then old(player.appliedEffects) + [EffectInstance(Blindness, 100, 0)]
        else old(player.appliedEffects)
    {
      hintAttempted := false;
      if !worldIsRemote && JRem(player.ticksExisted, 60) == 0 {
        player.AddPotionEffect(EffectInstance(Blindness, 100, 0));
        hintAttempted := true;
      }
    }
  }

  // ----------------------------------------------------------------------
  // Progression
  // ----------------------------------------------------------------------

  datatype Effect = Blindness | OtherEffect(id: nat)

  datatype EffectInstance = EffectInstance(effect: Effect, duration: nat, amplifier: nat)

  class Player {
    var ticksExisted: int
    /** The effects applied to the player, in order. */
    var appliedEffects: seq<EffectInstance>

    constructor (ticksExisted: int)
      ensures this.ticksExisted == ticksExisted && appliedEffects == []
    {
      this.ticksExisted := ticksExisted;
      appliedEffects := [];
    }

    method AddPotionEffect(e: EffectInstance)
      modifies this
      ensures appliedEffects == old(appliedEffects) + [e]
      ensures ticksExisted == old(ticksExisted)
    {
      appliedEffects := appliedEffects + [e];
    }
  }

  /**
   * The progression check of `enforceProgression`, with Java's `%`: it fires
   * exactly on server ticks that are multiples of 60, negative ones included.
   */
  predicate ProgressionDue(worldIsRemote: bool, ticksExisted: int)
    ensures ProgressionDue(worldIsRemote, ticksExisted) <==> !worldIsRemote && ticksExisted % 60 == 0
  {
    !worldIsRemote && JRem(ticksExisted, 60) == 0
  }

  /** On the server the check fires once in every 60 consecutive ticks, and never on the client. */
  lemma ProgressionOncePerSixtyTicks(worldIsRemote: bool, ticks: int, later: int)
    requires ProgressionDue(worldIsRemote, ticks)
    ensures !worldIsRemote
    ensures ticks < later < ticks + 60 ==> !ProgressionDue(worldIsRemote, later)
    ensures ProgressionDue(worldIsRemote, ticks + 60)
  {
  }
}
