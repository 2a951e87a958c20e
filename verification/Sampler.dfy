// The multiplicative log sampler: internal/logging/logger.go, sampleHit and hashSample.
module Sampler {

  const WORD: nat := 0x1_0000_0000_0000_0000
  const PERIOD: nat := 0x10_0000
  const MULTIPLIER: nat := 6364136223846793005

  type Seed = n: nat | n < WORD

  /** hashSample for one value of the counter: a 64-bit product cut to its low 20 bits. */
  function Hash(seed: Seed): nat {
    seed * MULTIPLIER % WORD % PERIOD
  }

  /** sampleHit for one value of the counter. The quotient of a 20-bit number by 2^20 is exact in floating point. */
  predicate Hit(seed: Seed, ratio: real) {
    if ratio >= 1.0 then true
    else if ratio <= 0.0 then false
    else Hash(seed) as real / PERIOD as real < ratio
  }

  /** The counter after `k` more calls, wrapping at 2^64. */
  function After(seed: Seed, k: nat): Seed {
    (seed + k) % WORD
  }

  class Source {
    var seed: Seed

    constructor ()
      ensures seed == 0
    {
      seed := 0;
    }

    /** One sampler call. Ratios outside (0, 1) decide without touching the counter. */
    method SampleHit(ratio: real) returns (hit: bool)
      modifies this
      ensures hit == Hit(seed, ratio)
      ensures seed == if 0.0 < ratio < 1.0 then After(old(seed), 1) else old(seed)
    {
      if ratio >= 1.0 {
        return true;
      }
      if ratio <= 0.0 {
        return false;
      }
      seed := (seed + 1) % WORD;
      return Hash(seed) as real / PERIOD as real < ratio;
    }
  }

  /** How many of the next `n` calls hit. */
  ghost function Hits(seed: Seed, n: nat, ratio: real): nat {
    if n == 0 then 0 else Hits(seed, n - 1, ratio) + (if Hit(After(seed, n), ratio) then 1 else 0)
  }

  // ---- Residues modulo 2^20 ----

  ghost function Residue(x: int): nat {
    x * MULTIPLIER % PERIOD
  }

  // MULTIPLIER * INVERSE == 1 + PERIOD * QUOTIENT
  const INVERSE: nat := 927909
  const QUOTIENT: nat := 5631770400365308619

  lemma InverseHolds()
    ensures MULTIPLIER * INVERSE == 1 + PERIOD * QUOTIENT
  {
  }

  /** Cutting to 64 bits first does not change the low 20 bits. */
  lemma HashIsResidue(seed: Seed, k: nat)
    ensures Hash(After(seed, k)) == Residue(seed + k)
  {
    var x := seed + k;
    var r, d := After(seed, k), x / WORD;
    assert x == WORD * d + r;
    assert WORD == PERIOD * 0x1000_0000_0000;
    var e := r * MULTIPLIER / WORD;
    assert r * MULTIPLIER == WORD * e + r * MULTIPLIER % WORD;
    assert x * MULTIPLIER == PERIOD * (0x1000_0000_0000 * (d * MULTIPLIER + e)) + r * MULTIPLIER % WORD;
    Shift(r * MULTIPLIER % WORD, 0x1000_0000_0000 * (d * MULTIPLIER + e));
  }

  lemma Shift(a: int, m: int)
    ensures (PERIOD * m + a) % PERIOD == a % PERIOD
  {
  }

  /** Equal residues come from equal arguments modulo 2^20: the odd multiplier has an inverse. */
  lemma ResidueInjective(x: int, y: int)
    requires Residue(x) == Residue(y)
    ensures x % PERIOD == y % PERIOD
  {
    InverseHolds();
    var a := x * MULTIPLIER / PERIOD - y * MULTIPLIER / PERIOD;
    assert (x - y) * MULTIPLIER == PERIOD * a;
    assert (x - y) * MULTIPLIER * INVERSE == PERIOD * a * INVERSE;
    assert x - y == PERIOD * (a * INVERSE - (x - y) * QUOTIENT);
    Shift(y, a * INVERSE - (x - y) * QUOTIENT);
  }

  /** Every value below 2^20 is the residue of exactly one position among the next 2^20. */
  function Position(s: int, v: nat): nat {
    1 + (v * INVERSE - s - 1) % PERIOD
  }

  lemma PositionHits(s: int, v: nat)
    requires v < PERIOD
    ensures 1 <= Position(s, v) <= PERIOD && Residue(s + Position(s, v)) == v
  {
    InverseHolds();
    var z := v * INVERSE - s - 1;
    var x := s + Position(s, v);
    assert z == PERIOD * (z / PERIOD) + z % PERIOD;
    assert x == v * INVERSE - PERIOD * (z / PERIOD);
    assert x * MULTIPLIER == v * (MULTIPLIER * INVERSE) - PERIOD * (z / PERIOD) * MULTIPLIER;
    assert x * MULTIPLIER == PERIOD * (v * QUOTIENT - z / PERIOD * MULTIPLIER) + v;
    Shift(v, v * QUOTIENT - z / PERIOD * MULTIPLIER);
  }

  lemma PositionUnique(s: int, v: nat, k: nat)
    requires v < PERIOD && 1 <= k <= PERIOD && Residue(s + k) == v
    ensures k == Position(s, v)
  {
    hide Residue, Position;
    PositionHits(s, v);
    var p := Position(s, v);
    ResidueInjective(s + k, s + p);
    CloseEqual(s, k, p);
  }

  lemma CloseEqual(s: int, k: nat, p: nat)
    requires 1 <= k <= PERIOD && 1 <= p <= PERIOD && (s + k) % PERIOD == (s + p) % PERIOD
    ensures k == p
  {
    var d := (s + k) / PERIOD - (s + p) / PERIOD;
    assert k - p == PERIOD * d;
  }

  // ---- Counting ----

  /** Residues below `t` among positions 1 to `n` after `s`. */
  ghost function Below(s: int, n: nat, t: nat): nat {
    if n == 0 then 0 else Below(s, n - 1, t) + (if Residue(s + n) < t then 1 else 0)
  }

  ghost function Equal(s: int, n: nat, v: nat): nat {
    if n == 0 then 0 else Equal(s, n - 1, v) + (if Residue(s + n) == v then 1 else 0)
  }

  lemma {:induction false} BelowStep(s: int, n: nat, t: nat)
    ensures Below(s, n, t + 1) == Below(s, n, t) + Equal(s, n, t)
  {
    hide Residue;
    if n > 0 {
      BelowStep(s, n - 1, t);
    }
  }

  lemma {:induction false} EqualOnce(s: int, n: nat, v: nat)
    requires v < PERIOD && n <= PERIOD
    ensures Equal(s, n, v) == if Position(s, v) <= n then 1 else 0
  {
    hide Residue, Position;
    PositionHits(s, v);
    if n > 0 {
      EqualOnce(s, n - 1, v);
      if Residue(s + n) == v {
        PositionUnique(s, v, n);
      }
    }
  }

  lemma {:induction false} BelowZero(s: int, n: nat)
    ensures Below(s, n, 0) == 0
  {
    if n > 0 {
      BelowZero(s, n - 1);
    }
  }

  /** A full period meets every residue once, so exactly `t` of them lie below `t`. */
  lemma {:induction false} BelowExact(s: int, t: nat)
    requires t <= PERIOD
    ensures Below(s, PERIOD, t) == t
  {
    hide Below, Equal, Residue, Position;
    if t == 0 {
      BelowZero(s, PERIOD);
    } else {
      BelowExact(s, t - 1);
      BelowStep(s, PERIOD, t - 1);
      EqualOnce(s, PERIOD, t - 1);
      PositionHits(s, t - 1);
    }
  }

  /** `t` is the ceiling of `ratio * 2^20`. */
  ghost predicate IsCeiling(t: nat, ratio: real) {
    t as real - 1.0 < ratio * PERIOD as real <= t as real
  }

  lemma HitIsBelow(seed: Seed, k: nat, ratio: real, t: nat)
    requires 0.0 < ratio < 1.0 && IsCeiling(t, ratio)
    ensures Hit(After(seed, k), ratio) <==> Residue(seed + k) < t
  {
    hide Residue, Hash, After;
    HashIsResidue(seed, k);
    var h := Hash(After(seed, k));
    DivideCompare(h as real, ratio);
    assert (h as real < ratio * PERIOD as real) <==> h < t;
  }

  lemma DivideCompare(h: real, ratio: real)
    ensures h / PERIOD as real < ratio <==> h < ratio * PERIOD as real
  {
  }

  lemma {:induction false} HitsAreBelow(seed: Seed, n: nat, ratio: real, t: nat)
    requires 0.0 < ratio < 1.0 && IsCeiling(t, ratio)
    ensures Hits(seed, n, ratio) == Below(seed, n, t)
  {
    hide Residue, Hit, After;
    if n > 0 {
      HitsAreBelow(seed, n - 1, ratio, t);
      HitIsBelow(seed, n, ratio, t);
    }
  }

  /** In any 2^20 consecutive calls with a ratio strictly between 0 and 1, exactly ceil(ratio * 2^20) hit. */
  lemma SamplingIsExact(seed: Seed, ratio: real, t: nat)
    requires 0.0 < ratio < 1.0 && t as real - 1.0 < ratio * 1048576.0 <= t as real
    ensures Hits(seed, 1048576, ratio) == t
  {
    assert IsCeiling(t, ratio);
    hide Hits, Below;
    assert t <= PERIOD;
    HitsAreBelow(seed, PERIOD, ratio, t);
    BelowExact(seed, t);
  }
}
