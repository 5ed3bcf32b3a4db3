/** The reconnect delay (internal/controlplane/client.go, nextBackoff), in nanoseconds on int64. */
module Backoff {
  import opened Int64

  const TWO_53: int := 0x20_0000_0000_0000

  function Pow2(n: nat): nat {
    if n == 0 then 1 else 2 * Pow2(n - 1)
  }

  // The spacing of float64 values around x.
  function FloatUnit(x: nat): (u: nat)
    ensures u >= 1
    ensures x < TWO_53 ==> u == 1
    ensures x >= TWO_53 ==> u * 0x10_0000_0000_0000 <= x
  {
    if x < TWO_53 then 1 else 2 * FloatUnit(x / 2)
  }

  // int64(float64(x)): round to nearest, ties to even.
  function ViaFloat64(x: nat): (y: nat)
    ensures x <= TWO_53 ==> y == x
    ensures x < TWO_63 / 2 ==> y < TWO_63
  {
    var u := FloatUnit(x);
    var q, r := x / u, x % u;
    assert x == q * u + r;
    if x < TWO_53 then
      assert u == 1 && r == 0;
      x
    else if 2 * r < u || (2 * r == u && q % 2 == 0) then
      x - r
    else
      x - r + u
  }

  // The unit is the power of two for which x takes up 53 bits, or 1 if it takes fewer.
  lemma {:induction false} FloatUnitIs(x: nat)
    ensures x < TWO_53 * FloatUnit(x)
    ensures FloatUnit(x) > 1 ==> TWO_53 * FloatUnit(x) <= 2 * x
    ensures exists k: nat :: FloatUnit(x) == Pow2(k)
  {
    if x < TWO_53 {
      assert FloatUnit(x) == Pow2(0);
    } else {
      FloatUnitIs(x / 2);
      var k: nat :| FloatUnit(x / 2) == Pow2(k);
      assert FloatUnit(x) == Pow2(k + 1);
    }
  }

  // y is n units, no further from x than half a unit, and even if just that far.
  predicate Rounds(x: nat, u: nat, y: nat, n: nat) {
    var error := if y < x then x - y else y - x;
    y == n * u && 2 * error <= u && (2 * error == u ==> n % 2 == 0)
  }

  function HalfEven(x: nat, u: nat, q: nat, r: nat): int {
    if 2 * r < u || (2 * r == u && q % 2 == 0) then x - r else x - r + u
  }

  lemma HalfEvenRounds(x: nat, u: nat, q: nat, r: nat)
    requires x == q * u + r && r < u
    ensures HalfEven(x, u, q, r) >= 0 && exists n: nat :: Rounds(x, u, HalfEven(x, u, q, r), n)
  {
    if 2 * r < u || (2 * r == u && q % 2 == 0) {
      assert Rounds(x, u, x - r, q);
    } else {
      assert (q + 1) * u == q * u + u;
      assert Rounds(x, u, x - r + u, q + 1);
    }
  }

  lemma QuotientAndRemainder(x: nat, u: nat)
    requires u > 0
    ensures x == x / u * u + x % u && x % u < u
  {
  }

  lemma LargeIsHalfEven(x: nat)
    requires x >= TWO_53
    ensures ViaFloat64(x) == HalfEven(x, FloatUnit(x), x / FloatUnit(x), x % FloatUnit(x))
  {
  }

  // The result is the nearest multiple of the unit, of two as near the even one.
  lemma ViaFloat64Rounds(x: nat)
    ensures exists n: nat :: Rounds(x, FloatUnit(x), ViaFloat64(x), n)
  {
    if x < TWO_53 {
      assert FloatUnit(x) == 1 && ViaFloat64(x) == x;
      assert Rounds(x, 1, x, x);
    } else {
      var u := FloatUnit(x);
      QuotientAndRemainder(x, u);
      HalfEvenRounds(x, u, x / u, x % u);
      LargeIsHalfEven(x);
    }
  }

  // base doubled n times.
  function Doubled(base: nat, n: nat): nat {
    if n == 0 then base else 2 * Doubled(base, n - 1)
  }

  // The delay before jitter in round n.
  function Delay(base: nat, max: nat, n: nat): nat {
    if n == 0 then base
    else if Doubled(base, n) >= 2 * (max / 2) then max
    else Doubled(base, n)
  }

  // Jitter is drawn below half the delay as float64 renders it; with no half there is none.
  function JitterBound(d: nat): nat {
    if d / 2 == 0 then 1 else ViaFloat64(d / 2)
  }

  predicate JitterOf(d: nat, jitter: nat) {
    jitter < JitterBound(d)
  }

  ghost predicate WaitOf(d: nat, wait: int) {
    exists jitter: nat :: JitterOf(d, jitter) && wait == Wrap64(d + jitter)
  }

  // The wait a draw of the random source gives.
  function Draw(d: nat, random: nat): int {
    Wrap64(d + if JitterBound(d) == 0 then 0 else random % JitterBound(d))
  }

  lemma DrawIsWait(d: nat, random: nat)
    ensures WaitOf(d, Draw(d, random))
  {
    if d / 2 > 0 { HalfSurvivesFloat(d / 2); }
    assert JitterOf(d, random % JitterBound(d));
  }

  lemma {:induction false} DoubledGrows(base: nat, m: nat, n: nat)
    requires m <= n
    ensures base <= Doubled(base, m) <= Doubled(base, n)
  {
    if m < n {
      DoubledGrows(base, m, n - 1);
    } else if m > 0 {
      DoubledGrows(base, m - 1, m - 1);
    }
  }

  lemma {:induction false} DoubledIsTimesPow2(base: nat, n: nat)
    ensures Doubled(base, n) == base * Pow2(n)
  {
    if n == 0 {
    } else {
      DoubledIsTimesPow2(base, n - 1);
    }
  }

  method NextBackoff(backoffBase: int64, backoffMax: int64, attempt: int) returns (wait: int)
    requires 0 < backoffBase <= backoffMax
    ensures WaitOf(Delay(backoffBase as int, backoffMax as int, if attempt < 0 then 0 else attempt), wait)
  {
    var n := if attempt < 0 then 0 else attempt;
    ghost var base, max := backoffBase as int, backoffMax as int;
    var delay := backoffBase;
    var i := 0;
    while i < n
      invariant 0 <= i <= n
      invariant 0 < delay <= backoffMax
      invariant delay as int == Doubled(base, i)
      invariant i > 0 ==> delay as int < 2 * (max / 2)
    {
      if delay >= backoffMax / 2 {
        DoubledGrows(base, i + 1, n);
        delay := backoffMax;
        break;
      }
      delay := delay * 2;
      i := i + 1;
    }
    assert delay as int == Delay(base, max, n);
    if delay <= 0 {
      delay := backoffBase;
    }
    if delay > backoffMax {
      delay := backoffMax;
    }
    var maxJitter := delay / 2;
    if maxJitter <= 0 {
      WrapSmall(delay as int);
      assert JitterOf(delay as int, 0);
      return delay as int;
    }
    var bound := ViaFloat64(maxJitter as int);
    if bound < 1 {
      bound := 1;
    }
    assert JitterOf(delay as int, 0) by { HalfSurvivesFloat(maxJitter as int); }
    var jitter: nat :| jitter < bound;
    assert JitterOf(delay as int, jitter);
    return Wrap64(delay as int + jitter);
  }

  lemma WrapSmall(x: nat)
    requires x < 2 * TWO_63
    ensures Wrap64(x) == if x < TWO_63 then x else x - 2 * TWO_63
  {
  }

  lemma HalfSurvivesFloat(x: nat)
    requires x >= 1
    ensures ViaFloat64(x) >= 1
  {
    if x >= TWO_53 { assert FloatUnit(x) * 0x10_0000_0000_0000 <= x; }
  }

  // The closed form: base * 2^n capped at max. With an odd max the cap is reached one unit early.
  lemma DelayIsCappedDoubling(base: nat, max: nat, n: nat)
    requires 0 < base <= max
    ensures base <= Delay(base, max, n) <= max
    ensures var scaled := base * Pow2(n);
            Delay(base, max, n) ==
              if scaled >= max || (n > 0 && max % 2 == 1 && scaled == max - 1) then max else scaled
  {
    DoubledGrows(base, 0, n);
    DoubledIsTimesPow2(base, n);
  }

  lemma DelayNeverDecreases(base: nat, max: nat, m: nat, n: nat)
    requires 0 < base <= max && m <= n
    ensures Delay(base, max, m) <= Delay(base, max, n)
  {
    DoubledGrows(base, m, n);
    DoubledGrows(base, 0, n);
  }

  // The waits one would expect: the delay itself, or anything in [d, d + d/2).
  predicate Expected(d: nat, wait: int) {
    if d < 2 then wait == d else d <= wait < d + d / 2
  }

  // float64 renders half the delay exactly.
  predicate HalfIsExact(d: nat) {
    (d / 2) % FloatUnit(d / 2) == 0
  }

  lemma ExactOnUnits(x: nat)
    ensures ViaFloat64(x) == x <==> x % FloatUnit(x) == 0
  {
  }

  // The waits are exactly the expected ones iff float64 renders half the delay exactly and no sum leaves int64.
  lemma WaitRangeIff(d: nat)
    requires d < TWO_63
    ensures (forall wait :: WaitOf(d, wait) <==> Expected(d, wait)) <==> HalfIsExact(d) && d + d / 2 <= TWO_63
  {
    ExactOnUnits(d / 2);
    if HalfIsExact(d) && d + d / 2 <= TWO_63 {
      forall wait
        ensures WaitOf(d, wait) <==> Expected(d, wait)
      {
        WaitsWithoutWrap(d, wait);
      }
    } else {
      var wait := UnexpectedWait(d);
    }
  }

  lemma WaitsWithoutWrap(d: nat, wait: int)
    requires HalfIsExact(d) && d + d / 2 <= TWO_63 && d < TWO_63
    ensures WaitOf(d, wait) <==> Expected(d, wait)
  {
    ExactOnUnits(d / 2);
    if WaitOf(d, wait) {
      var jitter: nat :| JitterOf(d, jitter) && wait == Wrap64(d + jitter);
      WrapSmall(d + jitter);
    }
    if Expected(d, wait) {
      WrapSmall(wait);
      assert JitterOf(d, wait - d);
    }
  }

  // Otherwise some wait is possible and not expected, or the other way round.
  lemma UnexpectedWait(d: nat) returns (wait: int)
    requires d < TWO_63 && !(HalfIsExact(d) && d + d / 2 <= TWO_63)
    ensures WaitOf(d, wait) != Expected(d, wait)
  {
    var half := d / 2;
    ExactOnUnits(half);
    if JitterBound(d) < half {
      wait := d + half - 1;
      forall jitter: nat | JitterOf(d, jitter)
        ensures Wrap64(d + jitter) != wait
      {
        WrapSmall(d + jitter);
      }
    } else if JitterBound(d) > half {
      wait := Wrap64(d + half);
      WrapSmall(d + half);
      assert JitterOf(d, half);
    } else {
      wait := Wrap64(TWO_63);
      WrapSmall(TWO_63);
      assert JitterOf(d, TWO_63 - d);
    }
  }

  // Up to 2^54 ns, half a year, the range is always as expected.
  lemma WaitRange(d: nat, wait: int)
    requires d <= 2 * TWO_53
    ensures WaitOf(d, wait) <==> Expected(d, wait)
  {
    ExactOnUnits(d / 2);
    WaitsWithoutWrap(d, wait);
  }

  // Just above it need not be: half of 2^54 + 6 rounds up, and the bound itself can be drawn.
  lemma WaitOutOfRange()
    ensures var d := 2 * TWO_53 + 6; WaitOf(d, d + d / 2) && !Expected(d, d + d / 2)
  {
    var d := 2 * TWO_53 + 6;
    assert FloatUnit(d / 2) == 2 * FloatUnit(d / 4) && FloatUnit(d / 4) == 1;
    assert ViaFloat64(d / 2) == d / 2 + 1;
    assert JitterOf(d, d / 2);
    WrapSmall(d + d / 2);
  }

  // For longer delays the sum can wrap to a negative wait, exactly when the largest jitter leaves int64.
  lemma WaitIsNeverShorterIffNoWrap(d: nat)
    requires d < TWO_63
    ensures (forall wait :: WaitOf(d, wait) ==> wait >= d) <==> d + JitterBound(d) <= TWO_63
  {
    if d + JitterBound(d) > TWO_63 {
      var k := TWO_63 - d;
      assert JitterOf(d, k);
      WrapSmall(d + k);
      assert WaitOf(d, Wrap64(d + k));
    } else {
      forall wait | WaitOf(d, wait)
        ensures wait >= d
      {
        var j: nat :| JitterOf(d, j) && wait == Wrap64(d + j);
        WrapSmall(d + j);
      }
    }
  }
}
