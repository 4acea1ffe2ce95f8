/**
 * The root-hung corridor of the minotaur maze: `generate` walks the columns of
 * the corridor's local 5 x 7 x 5 block grid (x across, y up, z along) and, for
 * each column it decides to decorate, puts dirt above the ceiling, hangs a root
 * strand of random length from it, and sometimes drops one or two blocks of
 * gravel on the floor. Every decision is a `nextInt` draw of the generator.
 */
module MazeRoots {
  import opened Randomness

  datatype Block = Dirt | RootStrand | Gravel | Existing(id: nat)

  /** The local grid of the corridor piece. */
  const SizeX: int := 5
  const SizeY: int := 7
  const SizeZ: int := 5
  /** The layer above the corridor ceiling that receives the dirt. */
  const CeilingY: int := 6

  predicate InGrid(x: int, y: int, z: int)
  {
    0 <= x < SizeX && 0 <= y < SizeY && 0 <= z < SizeZ
  }

  // ----------------------------------------------------------------------
  // What the draws decide, column by column
  // ----------------------------------------------------------------------

  /** What one column receives: nothing, or dirt, a root strand and optional gravel. */
  datatype ColumnPlan = Plain | Decorated(length: nat, gravelLow: bool, gravelHigh: bool)

  /** A column's plan and the position of the first draw after it. */
  datatype ColumnDraws = ColumnDraws(plan: ColumnPlan, next: nat)

  /**
   * The draws of one column `x` starting at `pos`, in the order `generate`
   * takes them: `nextInt(x + 2)` decides whether to decorate, `nextInt(6)` the
   * root length, `nextInt(x + 1)` the lower gravel and, only when that placed
   * gravel, one more `nextInt(x + 1)` the upper gravel.
   */
  function PlanColumn(raw: nat -> nat, pos: nat, x: int): (r: ColumnDraws)
    requires 1 <= x
    ensures r.plan.Decorated? <==> Draw(raw, pos, x + 2) > 0
    ensures r.plan.Decorated? ==> r.plan.length <= 5
    ensures r.plan.Decorated? && r.plan.gravelHigh ==> r.plan.gravelLow
    ensures x == 1 ==> r.plan.Plain? || !r.plan.gravelLow
    ensures r.next == pos + (if r.plan.Plain? then 1 else if r.plan.gravelLow then 4 else 3)
  {
    var freq := x;
    if Draw(raw, pos, freq + 2) > 0 then
      var length := Draw(raw, pos + 1, 6);
      var low := Draw(raw, pos + 2, freq + 1) > 1;
      var high := low && Draw(raw, pos + 3, freq + 1) > 1;
      ColumnDraws(Decorated(length, low, high), if low then pos + 4 else pos + 3)
    else
      ColumnDraws(Plain, pos + 1)
  }

  /** The number of columns visited before column (x, z), in x-major order. */
  function ColumnIndex(x: int, z: int): int
  {
    (x - 1) * 5 + z
  }

  /**
   * The position of the first draw of column (x, z) when the first column starts
   * at `pos0`; z = 5 stands for the position right after column (x, 4). Every
   * column takes between one and four draws.
   */
  function ColumnStart(raw: nat -> nat, pos0: nat, x: int, z: int): (pos: nat)
    requires 1 <= x <= SizeX && 0 <= z <= SizeZ
    ensures pos0 + ColumnIndex(x, z) <= pos <= pos0 + 4 * ColumnIndex(x, z)
    decreases x, z
  {
    if z > 0 then PlanColumn(raw, ColumnStart(raw, pos0, x, z - 1), x).next
    else if x > 1 then ColumnStart(raw, pos0, x - 1, SizeZ)
    else pos0
  }

  /** The plan of column (x, z) when `generate` starts drawing at `pos0`. */
  function PlanAt(raw: nat -> nat, pos0: nat, x: int, z: int): ColumnPlan
    requires 1 <= x < SizeX && 0 <= z < SizeZ
  {
    PlanColumn(raw, ColumnStart(raw, pos0, x, z), x).plan
  }

  /**
   * The block at height `y` of a column after it was decorated by `plan`, when it
   * held `prior` before (placements outside the clipping box are dropped earlier).
   * The placements happen in the order dirt, roots from the bottom up, lower
   * gravel, upper gravel, so a later one replaces an earlier one at the same height.
   */
  function PlacedBlock(plan: ColumnPlan, y: int, prior: Block): (b: Block)
    ensures plan.Plain? ==> b == prior
    ensures b == prior || b == Gravel || b == RootStrand || b == Dirt
    ensures y > CeilingY ==> b == prior
    ensures y < 1 && (plan.Decorated? ==> plan.length < CeilingY) ==> b == prior
  {
    match plan
    case Plain => prior
    case Decorated(length, low, high) =>
      if low && y == 1 then Gravel
      else if high && y == 2 then Gravel
      else if CeilingY - length <= y < CeilingY then RootStrand
      else if y == CeilingY then Dirt
      else prior
  }

  // ----------------------------------------------------------------------
  // Properties of the plan
  // ----------------------------------------------------------------------

  /** A decorated column always gets dirt above the ceiling. */
  lemma DirtAboveCeiling(plan: ColumnPlan, prior: Block)
    requires plan.Decorated?
    ensures PlacedBlock(plan, CeilingY, prior) == Dirt
  {
  }

  /**
   * A root strand of length `length` (at most five) fills exactly the heights
   * [6 - length, 6), except where gravel was dropped on it; so it never reaches
   * the floor layer y = 0 nor the dirt layer y = 6.
   */
  lemma RootStrandSpan(plan: ColumnPlan, y: int, prior: Block)
    requires plan.Decorated? && plan.length <= 5 && prior != RootStrand
    ensures PlacedBlock(plan, y, prior) == RootStrand <==>
      && CeilingY - plan.length <= y < CeilingY
      && !(plan.gravelLow && y == 1)
      && !(plan.gravelHigh && y == 2)
    ensures PlacedBlock(plan, 0, prior) == prior
    ensures PlacedBlock(plan, y, prior) == RootStrand ==> 1 <= y < CeilingY
  {
  }

  /** Gravel is dropped after the roots, so it wins where both are placed. */
  lemma GravelReplacesRoots(plan: ColumnPlan, prior: Block)
    requires plan.Decorated?
    ensures plan.gravelLow ==> PlacedBlock(plan, 1, prior) == Gravel
    ensures plan.gravelHigh ==> PlacedBlock(plan, 2, prior) == Gravel
  {
  }

  /**
   * Upper gravel only ever rests on lower gravel: if the column ends with gravel
   * at y = 2 that was not there before, it ends with gravel at y = 1 whatever
   * was there. Column x = 1 never receives gravel, since `nextInt(2)` never
   * exceeds 1.
   */
  lemma GravelStacksFromTheFloor(raw: nat -> nat, pos0: nat, x: int, z: int, below: Block, above: Block)
    requires 1 <= x < SizeX && 0 <= z < SizeZ
    ensures PlacedBlock(PlanAt(raw, pos0, x, z), 2, above) == Gravel && above != Gravel ==>
      PlacedBlock(PlanAt(raw, pos0, x, z), 1, below) == Gravel
    ensures x == 1 ==> forall y, prior :: PlacedBlock(PlanAt(raw, pos0, x, z), y, prior) == Gravel ==> prior == Gravel
  {
  }

  /** `generate` takes between 20 and 80 draws in all. */
  lemma DrawsTaken(raw: nat -> nat, pos0: nat)
    ensures pos0 + 20 <= ColumnStart(raw, pos0, SizeX, 0) <= pos0 + 80
  {
  }

  // ----------------------------------------------------------------------
  // The generator, in place
  // ----------------------------------------------------------------------

  /**
   * `setBlockState` of a structure piece: write `b` at local (x, y, z) when that
   * position lies inside the clipping box, which `inside` stands for.
   */
  method SetBlockState(world: array3<Block>, inside: (int, int, int) -> bool, b: Block, x: int, y: int, z: int)
    requires world.Length0 == SizeX && world.Length1 == SizeY && world.Length2 == SizeZ
    requires InGrid(x, y, z)
    modifies world
    ensures world[x, y, z] == if inside(x, y, z) then b else old(world[x, y, z])
    ensures forall i, j, k | InGrid(i, j, k) && !(i == x && j == y && k == z) :: world[i, j, k] == old(world[i, j, k])
  {
    if inside(x, y, z) {
      world[x, y, z] := b;
    }
  }

  /** Dirt above the ceiling of column (x, z), then a root strand of `length` blocks below it. */
  method HangRoots(world: array3<Block>, inside: (int, int, int) -> bool, x: int, z: int, length: int)
    requires world.Length0 == SizeX && world.Length1 == SizeY && world.Length2 == SizeZ
    requires 1 <= x < SizeX && 0 <= z < SizeZ && 0 <= length <= 5
    modifies world
    ensures forall i, j, k | InGrid(i, j, k) ::
      world[i, j, k] ==
        if i == x && k == z && inside(i, j, k) && CeilingY - length <= j
        then (if j == CeilingY then Dirt else RootStrand)
        else old(world[i, j, k])
  {
    SetBlockState(world, inside, Dirt, x, CeilingY, z);
    var y := CeilingY - length;
    while y < CeilingY
      invariant CeilingY - length <= y <= CeilingY
      invariant forall i, j, k | InGrid(i, j, k) ::
        world[i, j, k] ==
          if i == x && k == z && inside(i, j, k) && (j == CeilingY || CeilingY - length <= j < y)
          then (if j == CeilingY then Dirt else RootStrand)
          else old(world[i, j, k])
    {
      SetBlockState(world, inside, RootStrand, x, y, z);
      y := y + 1;
    }
  }

  /** The body of `generate`'s z-loop: decorate column (x, z) or leave it alone. */
  method DecorateColumn(world: array3<Block>, rand: Random, inside: (int, int, int) -> bool, x: int, z: int)
    requires world.Length0 == SizeX && world.Length1 == SizeY && world.Length2 == SizeZ
    requires 1 <= x < SizeX && 0 <= z < SizeZ
    modifies world, rand
    ensures rand.consumed == PlanColumn(rand.raw, old(rand.consumed), x).next
    ensures forall i, j, k | InGrid(i, j, k) ::
      world[i, j, k] ==
        if i == x && k == z && inside(i, j, k)
        then PlacedBlock(PlanColumn(rand.raw, old(rand.consumed), x).plan, j, old(world[i, j, k]))
        else old(world[i, j, k])
  {
    ghost var pos := rand.consumed;
    var freq := x;
    var decorate := rand.NextInt(freq + 2);
    if decorate > 0 {
      var length := rand.NextInt(6);
      HangRoots(world, inside, x, z, length);
      label Rooted:
      var gravel := rand.NextInt(freq + 1);
      var moreGravel := 0;
      if gravel > 1 {
        SetBlockState(world, inside, Gravel, x, 1, z);
        moreGravel := rand.NextInt(freq + 1);
        if moreGravel > 1 {
          SetBlockState(world, inside, Gravel, x, 2, z);
        }
      }
      ghost var plan := Decorated(length, gravel > 1, gravel > 1 && moreGravel > 1);
      assert PlanColumn(rand.raw, pos, x) == ColumnDraws(plan, rand.consumed);
      forall i, j, k | InGrid(i, j, k)
        ensures world[i, j, k] ==
          if i == x && k == z && inside(i, j, k) then PlacedBlock(plan, j, old(world[i, j, k]))
          else old(world[i, j, k])
      {
        assert world[i, j, k] ==
          if i == x && k == z && inside(i, j, k) && ((j == 1 && plan.gravelLow) || (j == 2 && plan.gravelHigh))
          then Gravel
          else old@Rooted(world[i, j, k]);
      }
    }
  }

  /** `generate`'s z-loop for one x: decorate the columns (x, 0) .. (x, 4) in order. */
  method DecorateSlice(world: array3<Block>, rand: Random, inside: (int, int, int) -> bool, x: int, ghost pos0: nat)
    requires world.Length0 == SizeX && world.Length1 == SizeY && world.Length2 == SizeZ
    requires 1 <= x < SizeX
    requires rand.consumed == ColumnStart(rand.raw, pos0, x, 0)
    modifies world, rand
    ensures rand.consumed == ColumnStart(rand.raw, pos0, x, SizeZ)
    ensures forall i, j, k | InGrid(i, j, k) ::
      world[i, j, k] ==
        if i == x && inside(i, j, k)
        then PlacedBlock(PlanAt(rand.raw, pos0, i, k), j, old(world[i, j, k]))
        else old(world[i, j, k])
  {
    var z := 0;
    while z < 5
      invariant 0 <= z <= SizeZ
      invariant rand.consumed == ColumnStart(rand.raw, pos0, x, z)
      invariant forall i, j, k | InGrid(i, j, k) ::
        world[i, j, k] ==
          if i == x && k < z && inside(i, j, k)
          then PlacedBlock(PlanAt(rand.raw, pos0, i, k), j, old(world[i, j, k]))
          else old(world[i, j, k])
    {
      label Before:
      DecorateColumn(world, rand, inside, x, z);
      forall i, j, k | InGrid(i, j, k)
        ensures world[i, j, k] ==
          if i == x && k < z + 1 && inside(i, j, k)
          then PlacedBlock(PlanAt(rand.raw, pos0, i, k), j, old(world[i, j, k]))
          else old(world[i, j, k])
      {
        if i == x && k == z {
          assert old@Before(world[i, j, k]) == old(world[i, j, k]);
        } else {
          assert world[i, j, k] == old@Before(world[i, j, k]);
        }
      }
      z := z + 1;
    }
  }

  /**
   * `generate`: decorate the columns x = 1..4, z = 0..4 in that order; the
   * column x = 0 and every block outside the clipping box are left alone.
   * It always reports success.
   */
  method Generate(world: array3<Block>, rand: Random, inside: (int, int, int) -> bool) returns (ok: bool)
    requires world.Length0 == SizeX && world.Length1 == SizeY && world.Length2 == SizeZ
    modifies world, rand
    ensures ok
    ensures rand.consumed == ColumnStart(rand.raw, old(rand.consumed), SizeX, 0)
    ensures forall i, j, k | InGrid(i, j, k) ::
      world[i, j, k] ==
        if 1 <= i && inside(i, j, k)
        then PlacedBlock(PlanAt(rand.raw, old(rand.consumed), i, k), j, old(world[i, j, k]))
        else old(world[i, j, k])
  {
    ghost var pos0 := rand.consumed;
    var x := 1;
    while x < 5
      invariant 1 <= x <= SizeX
      invariant rand.consumed == ColumnStart(rand.raw, pos0, x, 0)
      invariant forall i, j, k | InGrid(i, j, k) ::
        world[i, j, k] ==
          if 1 <= i < x && inside(i, j, k)
          then PlacedBlock(PlanAt(rand.raw, pos0, i, k), j, old(world[i, j, k]))
          else old(world[i, j, k])
    {
      DecorateSlice(world, rand, inside, x, pos0);
      x := x + 1;
    }
    return true;
  }
}
