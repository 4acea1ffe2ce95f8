/**
 * A `java.util.Random` as the mod uses it: only `nextInt(bound)` is called.
 * The generator is an infinite stream of raw values; the k-th call
 * `nextInt(bound)` yields the k-th raw value reduced into [0, bound). Every
 * sequence of outcomes is produced by some stream, so fixing no particular
 * generator algorithm loses no behaviour.
 */
module Randomness {

  /** The outcome of the k-th draw when it asks for a value below `bound`. */
  function Draw(raw: nat -> nat, k: nat, bound: nat): (r: nat)
    requires bound > 0
    ensures r < bound
  {
    raw(k) % bound
  }

  class Random {
    /** The raw values this generator yields, in order. */
    const raw: nat -> nat
    /** How many values have been drawn so far. */
    var consumed: nat

    constructor (raw: nat -> nat)
      ensures this.raw == raw && consumed == 0
    {
      this.raw := raw;
      consumed := 0;
    }

    /** `nextInt(bound)`: the next draw, in [0, bound). */
    method NextInt(bound: nat) returns (r: nat)
      requires bound > 0
      modifies this
      ensures r == Draw(raw, old(consumed), bound)
      ensures consumed == old(consumed) + 1
    {
      r := Draw(raw, consumed, bound);
      consumed := consumed + 1;
    }
  }
}
