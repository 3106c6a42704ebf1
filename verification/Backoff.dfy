// The waiting time between two attempts, from internal/resilience/retry.go.
// Durations are integers; the floating-point computation is carried out over the reals.

module Backoff {
  type Fraction = r: real | 0.0 <= r < 1.0 witness 0.0

  datatype RetryConfig = RetryConfig(maxAttempts: int, initialBackoff: int, maxBackoff: int,
                                     multiplier: real, jitter: bool)
  {
    static const DEFAULTS := RetryConfig(3, 100_000_000, 2_000_000_000, 2.0, false)

    ghost predicate Valid() {
      0 < maxAttempts && 0 < initialBackoff && 0 < maxBackoff && 0.0 < multiplier
    }

    /** Replaces every non-positive setting by its default, whatever the others are, as the constructor does. */
    function Normalised(): (p: RetryConfig)
      ensures p.Valid() && p.jitter == jitter && (Valid() ==> p == this)
      ensures p.maxAttempts == if 0 < maxAttempts then maxAttempts else 3
      ensures p.initialBackoff == if 0 < initialBackoff then initialBackoff else 100_000_000
      ensures p.maxBackoff == if 0 < maxBackoff then maxBackoff else 2_000_000_000
      ensures p.multiplier == if 0.0 < multiplier then multiplier else 2.0
    {
      RetryConfig(if maxAttempts <= 0 then DEFAULTS.maxAttempts else maxAttempts,
                  if initialBackoff <= 0 then DEFAULTS.initialBackoff else initialBackoff,
                  if maxBackoff <= 0 then DEFAULTS.maxBackoff else maxBackoff,
                  if multiplier <= 0.0 then DEFAULTS.multiplier else multiplier,
                  jitter)
    }
  }

  function Pow(m: real, n: nat): real {
    if n == 0 then 1.0 else m * Pow(m, n - 1)
  }

  function Uncapped(p: RetryConfig, attempt: int): real
    requires attempt >= 1
  {
    p.initialBackoff as real * Pow(p.multiplier, attempt - 1)
  }

  /** Exponential growth, cut at `maxBackoff`. */
  function Base(p: RetryConfig, attempt: int): real
    requires attempt >= 1
  {
    var backoff := Uncapped(p, attempt);
    if backoff > p.maxBackoff as real then p.maxBackoff as real else backoff
  }

  /** A uniform draw moves the base by up to a quarter of it in either direction. */
  function Shifted(base: real, draw: Fraction): real {
    var jitterRange := base * 0.25;
    base + (draw * 2.0 * jitterRange - jitterRange)
  }

  function Jittered(p: RetryConfig, attempt: int, draw: Fraction): real
    requires attempt >= 1
  {
    var backoff := Base(p, attempt);
    if p.jitter then Shifted(backoff, draw) else backoff
  }

  /** The duration waited: the real value with its fraction dropped. */
  function Wait(p: RetryConfig, attempt: int, draw: Fraction): int
    requires attempt >= 1
  {
    Jittered(p, attempt, draw).Floor
  }

  lemma MulPositive(a: real, b: real)
    requires a > 0.0 && b > 0.0
    ensures a * b > 0.0
  {
  }

  lemma {:induction false} PowPositive(m: real, n: nat)
    requires m > 0.0
    ensures Pow(m, n) > 0.0
  {
    if n == 0 {
    } else {
      PowPositive(m, n - 1);
      MulPositive(m, Pow(m, n - 1));
    }
  }

  lemma MulMonotone(a: real, b: real, c: real)
    requires a <= b && c >= 0.0
    ensures a * c <= b * c && c * a <= c * b
  {
  }

  lemma BaseBounds(p: RetryConfig, attempt: int)
    requires p.Valid() && attempt >= 1
    ensures 0.0 < Base(p, attempt) <= p.maxBackoff as real
    ensures Base(p, attempt) <= Uncapped(p, attempt)
    ensures Base(p, attempt) == p.maxBackoff as real || Base(p, attempt) == Uncapped(p, attempt)
  {
    PowPositive(p.multiplier, attempt - 1);
    MulPositive(p.initialBackoff as real, Pow(p.multiplier, attempt - 1));
  }

  /** The first wait is the initial one and each further one is `multiplier` times as long, up to the cap. */
  lemma BaseRecurrence(p: RetryConfig, attempt: int)
    requires p.Valid() && attempt >= 1
    ensures Base(p, 1) == (if p.initialBackoff > p.maxBackoff then p.maxBackoff else p.initialBackoff) as real
    ensures Uncapped(p, attempt + 1) == p.multiplier * Uncapped(p, attempt)
    ensures Base(p, attempt) < p.maxBackoff as real && Base(p, attempt + 1) < p.maxBackoff as real ==>
              Base(p, attempt + 1) == p.multiplier * Base(p, attempt)
  {
    var i, m, pow := p.initialBackoff as real, p.multiplier, Pow(p.multiplier, attempt - 1);
    assert i * (m * pow) == m * (i * pow);
  }

  lemma UncappedGrows(p: RetryConfig, attempt: int)
    requires p.Valid() && 1 <= attempt && p.multiplier >= 1.0
    ensures Uncapped(p, attempt) <= Uncapped(p, attempt + 1)
  {
    var pow := Pow(p.multiplier, attempt - 1);
    PowPositive(p.multiplier, attempt - 1);
    MulMonotone(1.0, p.multiplier, pow);
    MulMonotone(pow, Pow(p.multiplier, attempt), p.initialBackoff as real);
  }

  /** Without shrinking multiplier the base never decreases from one attempt to a later one. */
  lemma {:induction false} BaseGrows(p: RetryConfig, attempt: int, later: int)
    requires p.Valid() && 1 <= attempt <= later && p.multiplier >= 1.0
    ensures Base(p, attempt) <= Base(p, later)
    decreases later
  {
    if attempt == later {
    } else {
      BaseGrows(p, attempt, later - 1);
      UncappedGrows(p, later - 1);
    }
  }

  lemma UncappedShrinks(p: RetryConfig, attempt: int)
    requires p.Valid() && 1 <= attempt && p.multiplier <= 1.0
    ensures Uncapped(p, attempt) >= Uncapped(p, attempt + 1)
  {
    var pow := Pow(p.multiplier, attempt - 1);
    PowPositive(p.multiplier, attempt - 1);
    MulMonotone(p.multiplier, 1.0, pow);
    MulMonotone(Pow(p.multiplier, attempt), pow, p.initialBackoff as real);
  }

  /** With a multiplier of at most one the base never increases. */
  lemma {:induction false} BaseShrinks(p: RetryConfig, attempt: int, later: int)
    requires p.Valid() && 1 <= attempt <= later && p.multiplier <= 1.0
    ensures Base(p, attempt) >= Base(p, later)
    decreases later
  {
    if attempt == later {
    } else {
      BaseShrinks(p, attempt, later - 1);
      UncappedShrinks(p, later - 1);
    }
  }

  /** Jitter moves a base by less than a quarter of it, upwards strictly less. */
  lemma JitterBounds(base: real, draw: Fraction)
    requires base > 0.0
    ensures 0.75 * base <= Shifted(base, draw) < 1.25 * base
    ensures 0.0 < Shifted(base, draw)
  {
    MulMonotone(0.0, draw, base);
    MulPositive(1.0 - draw, base);
    assert draw * 2.0 * (base * 0.25) == 0.5 * (draw * base);
    assert (1.0 - draw) * base == base - draw * base;
  }

  /** The shift is proportional to base and draw: no draw, a quarter less; one half, the base itself. */
  lemma JitterLinear(base: real, draw: Fraction)
    ensures Shifted(base, 0.0) == 0.75 * base && Shifted(base, 0.5) == base
    ensures Shifted(base, draw) - 0.75 * base == 0.5 * (draw * base)
  {
    assert draw * 2.0 * (base * 0.25) == 0.5 * (draw * base);
  }

  /** With jitter the wait is within a quarter of the base; without it, it is the base. */
  lemma WaitBounds(p: RetryConfig, attempt: int, draw: Fraction)
    requires p.Valid() && attempt >= 1
    ensures p.jitter ==> 0.75 * Base(p, attempt) <= Jittered(p, attempt, draw) < 1.25 * Base(p, attempt)
    ensures !p.jitter ==> Jittered(p, attempt, draw) == Base(p, attempt)
    ensures 0 <= Wait(p, attempt, draw)
    ensures Jittered(p, attempt, draw) - 1.0 < Wait(p, attempt, draw) as real <= Jittered(p, attempt, draw)
  {
    BaseBounds(p, attempt);
    JitterBounds(Base(p, attempt), draw);
  }

  /** The wait of an attempt stays within `maxBackoff`, whatever is drawn. */
  ghost predicate NeverExceedsCap(p: RetryConfig, attempt: int)
    requires attempt >= 1
  {
    forall draw: Fraction :: Jittered(p, attempt, draw) <= p.maxBackoff as real
  }

  /** A draw that lifts the base over a cap below 1.25 times the base. */
  lemma HighDraw(base: real, cap: real) returns (draw: Fraction)
    requires 0.0 < base <= cap < 1.25 * base
    ensures Shifted(base, draw) > cap
  {
    // halfway between the draw that just reaches the cap and one
    var excess := (cap - base) / base;
    assert excess * base == cap - base;
    assert 0.0 <= excess < 0.25 by {
      if excess >= 0.25 {
        MulMonotone(0.25, excess, base);
      } else if excess < 0.0 {
        MulPositive(-excess, base);
      }
    }
    draw := 0.75 + excess;
    MulPositive(0.25 - excess, base);
    assert Shifted(base, draw) == base + 0.5 * (draw - 0.5) * base;
    assert 0.5 * (draw - 0.5) * base == 0.125 * base + 0.5 * (excess * base);
  }

  /** `maxBackoff` caps the base, not the wait: with jitter a draw lifts any base above four fifths of it over it. */
  lemma WaitWithinCapIff(p: RetryConfig, attempt: int)
    requires p.Valid() && attempt >= 1
    ensures NeverExceedsCap(p, attempt) <==> !p.jitter || 1.25 * Base(p, attempt) <= p.maxBackoff as real
  {
    var base, cap := Base(p, attempt), p.maxBackoff as real;
    BaseBounds(p, attempt);
    if !p.jitter || 1.25 * base <= cap {
      forall draw: Fraction ensures Jittered(p, attempt, draw) <= cap {
        JitterBounds(base, draw);
      }
    } else {
      var draw := HighDraw(base, cap);
      assert Jittered(p, attempt, draw) > cap;
    }
  }

  /** Once the base is capped, every draw above one half waits longer than the cap. */
  lemma CappedWaitExceedsIff(p: RetryConfig, attempt: int, draw: Fraction)
    requires p.Valid() && attempt >= 1 && Base(p, attempt) == p.maxBackoff as real
    ensures Jittered(p, attempt, draw) > p.maxBackoff as real <==> p.jitter && draw > 0.5
  {
    var base := Base(p, attempt);
    assert p.jitter ==> Jittered(p, attempt, draw) == base + 0.5 * ((draw - 0.5) * base);
    if draw > 0.5 {
      MulPositive(draw - 0.5, base);
    } else {
      MulMonotone(draw - 0.5, 0.0, base);
    }
  }

  /** The attempt after which a run can wait longest: the last to be repeated, or the first when waits shrink. */
  function LongestWait(p: RetryConfig): int {
    if p.multiplier >= 1.0 then p.maxAttempts - 1 else 1
  }

  /**
   * No wait of a run exceeds `maxBackoff`, whatever is drawn, exactly when there is no jitter, or no
   * wait, or the largest base leaves room for it.
   */
  lemma RunWithinCapIff(p: RetryConfig)
    requires p.Valid()
    ensures (forall attempt :: 1 <= attempt < p.maxAttempts ==> NeverExceedsCap(p, attempt))
            <==> !p.jitter || p.maxAttempts == 1 || 1.25 * Base(p, LongestWait(p)) <= p.maxBackoff as real
  {
    var longest := LongestWait(p);
    if p.maxAttempts > 1 {
      WaitWithinCapIff(p, longest);
    }
    forall attempt | 1 <= attempt < p.maxAttempts
      ensures !p.jitter || 1.25 * Base(p, longest) <= p.maxBackoff as real ==> NeverExceedsCap(p, attempt)
    {
      if p.multiplier >= 1.0 {
        BaseGrows(p, attempt, longest);
      } else {
        BaseShrinks(p, 1, attempt);
      }
      WaitWithinCapIff(p, attempt);
    }
  }

  /** The sum of the uncapped bases of attempts `first`, ..., `end - 1`. */
  function GeometricSum(p: RetryConfig, first: int, end: int): real
    requires first >= 1
    decreases end - first
  {
    if first >= end then 0.0 else Uncapped(p, first) + GeometricSum(p, first + 1, end)
  }
}
