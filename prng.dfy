/** The Lehmer (Park–Miller) generator behind `createPrng`: multiplier 16807,
    modulus 2^31 - 1. Each call returns (state - 1) / 2147483646; the model keeps
    the integer numerator `state - 1` and leaves the floating-point division out. */
module Prng {

  const Modulus: int := 2147483647
  const Multiplier: int := 16807
  /** The inverse of `Multiplier` modulo `Modulus`:
      16807 * 1407677000 == 11017 * 2147483647 + 1. */
  const MultiplierInverse: int := 1407677000

  /** JavaScript's `%`, which truncates toward zero: the result takes the sign of
      the dividend. (Dafny's `%` never returns a negative value.) */
  function JsRem(a: int, b: int): (r: int)
    requires b > 0
    ensures -b < r < b
    ensures a >= 0 ==> r == a % b
    ensures a < 0 ==> r <= 0 && r == -((-a) % b)
  {
    if a >= 0 then a % b else -((-a) % b)
  }

  /** The first two lines of `createPrng`, exactly as written:
      `state = seed % 2147483647; if (state <= 0) state += 2147483646`. */
  function NormalizeSeedAsWritten(seed: int): int {
    var s := JsRem(seed, Modulus);
    if s <= 0 then s + (Modulus - 1) else s
  }

  /** For a non-negative seed, the code as written starts the state in [1, 2^31 - 2]. */
  lemma NonNegativeSeedInRange(seed: int)
    requires seed >= 0
    ensures 1 <= NormalizeSeedAsWritten(seed) <= Modulus - 1
  {
  }

  /** A negative seed whose JavaScript remainder is -2147483646 makes the code as
      written start from state 0, where the generator stays: every later state is
      0 and every sample is -1 / 2147483646, outside [0, 1). */
  lemma NegativeSeedReachesZero()
    ensures NormalizeSeedAsWritten(-2147483646) == 0
    ensures forall n: nat :: Advance(0, n) == 0
  {
    forall n: nat ensures Advance(0, n) == 0 {
      AdvanceFromZero(n);
    }
  }

  /** The seeds the code as written sends to state 0 are exactly the negative seeds
      whose JavaScript remainder is -2147483646, that is, the seeds
      -2147483646 - k * 2147483647 for k >= 0. */
  lemma ZeroSeeds(seed: int)
    ensures NormalizeSeedAsWritten(seed) == 0 <==> JsRem(seed, Modulus) == -(Modulus - 1)
    ensures NormalizeSeedAsWritten(seed) == 0 <==> seed < 0 && (-seed) % Modulus == Modulus - 1
  {
  }

  /** Every member of that class of seeds is sent to state 0, not only the first. */
  lemma ZeroSeedClass(k: nat)
    ensures NormalizeSeedAsWritten(-(Modulus - 1) - k * Modulus) == 0
  {
    var a := (Modulus - 1) + k * Modulus;
    assert a % Modulus == Modulus - 1 by {
      assert a == k * Modulus + (Modulus - 1);
    }
    ZeroSeeds(-a);
  }

  lemma {:induction false} AdvanceFromZero(n: nat)
    ensures Advance(0, n) == 0
  {
    if n > 0 {
      AdvanceFromZero(n - 1);
    }
  }

  /** The normalisation the code evidently intends: the state always starts in
      [1, 2^31 - 2]. It agrees with the code wherever the code already lands in
      that range, and maps the seeds that land on 0 (see `ZeroSeeds`) to
      2147483646, as a seed divisible by the modulus does. */
  function NormalizeSeed(seed: int): (s: int)
    ensures 1 <= s <= Modulus - 1
    ensures 1 <= NormalizeSeedAsWritten(seed) ==> s == NormalizeSeedAsWritten(seed)
    ensures seed >= 0 ==> s == NormalizeSeedAsWritten(seed)
  {
    var s := NormalizeSeedAsWritten(seed);
    if s <= 0 then Modulus - 1 else s
  }

  /** One step of the generator: `state = (state * 16807) % 2147483647`. */
  function Step(state: int): (r: int)
    ensures 0 <= r < Modulus
  {
    state * Multiplier % Modulus
  }

  /** A step from a state in [1, 2^31 - 2] stays in that range. It cannot reach 0
      because 16807 has an inverse modulo the prime 2^31 - 1. */
  lemma StepInRange(state: int)
    requires 1 <= state <= Modulus - 1
    ensures 1 <= Step(state) <= Modulus - 1
  {
    var p := state * Multiplier;
    var q := p / Modulus;
    var r := p % Modulus;
    assert p == q * Modulus + r;
    var k := state * 11017 - q * MultiplierInverse;
    assert r * MultiplierInverse == state + Modulus * k by {
      calc {
        r * MultiplierInverse;
        (p - q * Modulus) * MultiplierInverse;
        state * (Multiplier * MultiplierInverse) - q * Modulus * MultiplierInverse;
        state * (11017 * Modulus + 1) - q * Modulus * MultiplierInverse;
        state + Modulus * k;
      }
    }
    assert k >= 0 ==> state + Modulus * k > 0;
    assert k < 0 ==> state + Modulus * k < 0;
  }

  /** The state after `n` calls from `state`. */
  function Advance(state: int, n: nat): int
    decreases n
  {
    if n == 0 then state else Step(Advance(state, n - 1))
  }

  lemma {:induction false} AdvanceInRange(state: int, n: nat)
    requires 1 <= state <= Modulus - 1
    ensures 1 <= Advance(state, n) <= Modulus - 1
    decreases n
  {
    if n > 0 {
      AdvanceInRange(state, n - 1);
      StepInRange(Advance(state, n - 1));
    }
  }

  /** The numerator returned by call number `k` (counting from 0) of a generator
      whose state starts at `start`. */
  function Draw(start: int, k: nat): int {
    Advance(start, k + 1) - 1
  }

  /** Every draw of a generator started in range is a numerator in [0, 2147483645],
      so every sample lies in [0, 1). */
  lemma DrawInRange(start: int, k: nat)
    requires 1 <= start <= Modulus - 1
    ensures 0 <= Draw(start, k) <= Modulus - 2
  {
    AdvanceInRange(start, k + 1);
  }

  /** The closure `createPrng` returns, with its captured `state` as a field. */
  class Generator {
    var state: int

    ghost predicate Valid()
      reads this
    {
      1 <= state <= Modulus - 1
    }

    /** `createPrng(seed)`, with the intended normalisation. */
    constructor (seed: int)
      ensures Valid() && state == NormalizeSeed(seed)
    {
      state := NormalizeSeed(seed);
    }

    /** One call of the returned closure: advance the state and return the
        numerator of the sample. */
    method Next() returns (numerator: int)
      requires Valid()
      modifies this
      ensures Valid()
      ensures state == Step(old(state))
      ensures numerator == state - 1 && 0 <= numerator <= Modulus - 2
    {
      StepInRange(state);
      state := state * Multiplier % Modulus;
      numerator := state - 1;
    }
  }
}
