/** `java.util.Random` and `ThreadLocalRandom`, as the schedulers and generators use
    them: an infinite stream of raw draws fixed by the seed, read one draw per call.
    `nextInt(bound)` yields a value in `[0, bound)` and `nextDouble()` a 53-bit value in
    `[0, 1)`; how Java derives the stream from the seed is not modelled, only that the
    same seed gives the same stream and therefore the same results. */
module JavaRandom {

  const TwoPow53: nat := 9007199254740992

  /** The value `nextDouble()` makes of a raw draw. */
  function UnitDraw(raw: nat): (d: real)
    ensures 0.0 <= d < 1.0
  {
    (raw % TwoPow53) as real / TwoPow53 as real
  }

  /** The value `nextInt(bound)` makes of a raw draw: its remainder modulo `bound`,
      taken by repeated subtraction. */
  function BoundedDraw(raw: nat, bound: nat): (r: nat)
    requires bound > 0
    ensures r < bound
    decreases raw
  {
    if raw < bound then raw else BoundedDraw(raw - bound, bound)
  }

  class Random {
    const stream: nat -> nat
    var cursor: nat

    constructor (stream: nat -> nat)
      ensures this.stream == stream && cursor == 0
    {
      this.stream := stream;
      cursor := 0;
    }

    method NextInt(bound: nat) returns (r: nat)
      requires bound > 0
      modifies this`cursor
      ensures r == BoundedDraw(stream(old(cursor)), bound) && r < bound
      ensures cursor == old(cursor) + 1
    {
      r := BoundedDraw(stream(cursor), bound);
      cursor := cursor + 1;
    }

    method NextDouble() returns (d: real)
      modifies this`cursor
      ensures d == UnitDraw(stream(old(cursor))) && 0.0 <= d < 1.0
      ensures cursor == old(cursor) + 1
    {
      d := UnitDraw(stream(cursor));
      cursor := cursor + 1;
    }
  }
}
