/** The connect loop of picolytics/setupdb.go with its capped, jittered, doubling backoff. Delays are
    nanoseconds in 64-bit integers, which wrap; the random draw and the jitter are reals. */
module Setup {
  const SECOND: int := 1_000_000_000
  const MAX_DELAY: int := 10 * SECOND
  const TWO63: int := 0x8000_0000_0000_0000
  const TWO64: int := 0x1_0000_0000_0000_0000

  function Wrap64(x: int): int {
    (x + TWO63) % TWO64 - TWO63
  }

  function Pow2(n: nat): nat {
    if n == 0 then 1 else 2 * Pow2(n - 1)
  }

  /** The conversion of a float to an integer: toward zero. */
  function Trunc(x: real): int {
    if x >= 0.0 then x.Floor else -((-x).Floor)
  }

  /** `time.Duration(.5*math.Pow(2, float64(attempt)))`. Go leaves the result open when it does not
      fit 64 bits: `huge` stands for whatever it is then. */
  function Half(attempt: nat, huge: int): int {
    if attempt == 0 then 0 else if attempt <= 63 then Pow2(attempt - 1) else huge
  }

  /** The delay before jitter. */
  function Delay(attempt: nat, huge: int): (d: int)
    ensures d <= MAX_DELAY
  {
    var delay := Wrap64(Half(attempt, huge) * SECOND);
    if delay > MAX_DELAY then MAX_DELAY else delay
  }

  /** The part of `x` that a random draw picks. */
  function PartOf(x: real, draw: real): real {
    draw * x
  }

  function Jittered(delay: int, draw: real): int {
    var jitter := delay as real * 0.1;
    delay + Trunc(PartOf(jitter, draw) - jitter / 2.0)
  }

  /** `backoffWithJitter`, given its random draw. */
  function BackoffWithJitter(attempt: nat, draw: real, huge: int): int {
    Jittered(Delay(attempt, huge), draw)
  }

  ghost predicate Draws(draws: seq<real>) {
    forall i | 0 <= i < |draws| :: 0.0 <= draws[i] < 1.0
  }

  /** How long one `time.Sleep` takes: a negative duration returns at once. */
  function Sleep(duration: int): nat {
    if duration < 0 then 0 else duration
  }

  /** The time slept after the first `|draws|` failed attempts. */
  function Slept(draws: seq<real>, huge: int): nat {
    if draws == [] then 0
    else Slept(draws[..|draws| - 1], huge) + Sleep(BackoffWithJitter(|draws| - 1, draws[|draws| - 1], huge))
  }

  // ---------- the intended schedule ----------

  /** Nothing, 1, 2, 4, 8 and from then on 10 seconds. */
  function Ideal(attempt: nat): int {
    if attempt == 0 then 0
    else if attempt < 5 then Pow2(attempt - 1) * SECOND
    else MAX_DELAY
  }

  function IdealTotal(n: nat): int {
    if n == 0 then 0 else IdealTotal(n - 1) + Ideal(n - 1)
  }

  lemma {:induction false} IdealTotalClosed(n: nat)
    ensures 1 <= n <= 5 ==> IdealTotal(n) == (Pow2(n - 1) - 1) * SECOND
    ensures n >= 5 ==> IdealTotal(n) == (15 + 10 * (n - 5)) * SECOND
  {
    if n > 0 {
      IdealTotalClosed(n - 1);
      assert Pow2(4) == 16 by {
        assert Pow2(2) == 4 && Pow2(3) == 8;
      }
      if 2 <= n <= 5 {
        assert Pow2(n - 1) == 2 * Pow2(n - 2);
      }
    }
  }

  lemma {:induction false} DoubleProduct(x: nat, y: nat)
    ensures 2 * (x * y) == (2 * x) * y
  {
  }

  lemma {:induction false} Pow2Add(a: nat, b: nat)
    ensures Pow2(a + b) == Pow2(a) * Pow2(b)
  {
    if a > 0 {
      Pow2Add(a - 1, b);
      DoubleProduct(Pow2(a - 1), Pow2(b));
    }
  }

  lemma {:induction false} Pow2Grows(a: nat, b: nat)
    requires a <= b
    ensures Pow2(a) <= Pow2(b)
  {
    if a < b {
      Pow2Grows(a, b - 1);
    }
  }

  lemma {:induction false} Powers()
    ensures Pow2(3) == 8 && Pow2(4) == 16 && Pow2(33) == 8_589_934_592 && Pow2(34) == 17_179_869_184
  {
    assert Pow2(2) == 4 && Pow2(3) == 8 && Pow2(4) == 16;
    Pow2Add(4, 4);
    Pow2Add(8, 8);
    Pow2Add(16, 16);
    assert Pow2(8) == 256 && Pow2(16) == 65_536 && Pow2(32) == 4_294_967_296;
    assert Pow2(33) == 2 * Pow2(32) && Pow2(34) == 2 * Pow2(33);
  }

  lemma {:induction false} WrapFits(x: int)
    requires -TWO63 <= x < TWO63
    ensures Wrap64(x) == x
  {
  }

  /** Up to attempt 34 the delay is the intended one. */
  lemma {:induction false} DelayIsIdeal(attempt: nat, huge: int)
    requires attempt <= 34
    ensures Delay(attempt, huge) == Ideal(attempt)
  {
    Powers();
    if attempt > 0 {
      Pow2Grows(attempt - 1, 33);
      WrapFits(Pow2(attempt - 1) * SECOND);
      if attempt < 5 {
        Pow2Grows(attempt - 1, 3);
      } else {
        Pow2Grows(4, attempt - 1);
      }
    }
  }

  /** The delay of any attempt whose half power fits 64 bits: the product's only 64-bit value, or the
      cap where that is greater. */
  lemma {:induction false} DelayWrapped(attempt: nat, product: int, huge: int)
    requires 1 <= attempt <= 63
    requires -0x8000_0000_0000_0000 <= product < 0x8000_0000_0000_0000
    requires (product - Pow2(attempt - 1) * 1_000_000_000) % 0x1_0000_0000_0000_0000 == 0
    ensures Delay(attempt, huge) == if product > 10_000_000_000 then 10_000_000_000 else product
  {
    WrapUnique(Pow2(attempt - 1) * 1_000_000_000, product);
  }

  lemma {:induction false} WrapUnique(x: int, y: int)
    requires -TWO63 <= y < TWO63 && (y - x) % TWO64 == 0
    ensures Wrap64(x) == y
  {
    assert x + TWO63 == (y + TWO63) - TWO64 * ((y - x) / TWO64);
  }

  /** At attempt 35 the multiplication wraps to a negative delay, so there is no wait at all. */
  lemma {:induction false} DelayWraps(huge: int)
    ensures Delay(35, huge) == -1_266_874_889_709_551_616
  {
    Powers();
  }

  lemma {:induction false} TruncTwentieth(x: real, d: int)
    requires 0 <= d && -(d as real) <= 20.0 * x <= d as real
    ensures -d <= 20 * Trunc(x) <= d
  {
    var down := if x >= 0.0 then x.Floor else (-x).Floor;
    assert 20.0 * (down as real) <= d as real;
    assert (20 * down) as real <= d as real;
  }

  lemma {:induction false} ProductOfNonNegatives(a: real, b: real)
    requires a >= 0.0 && b >= 0.0
    ensures a * b >= 0.0
  {
  }

  lemma {:induction false} PartInRange(x: real, draw: real)
    requires 0.0 <= draw < 1.0 && x >= 0.0
    ensures 0.0 <= PartOf(x, draw) <= x
  {
    ProductOfNonNegatives(draw, x);
    ProductOfNonNegatives(1.0 - draw, x);
    assert (1.0 - draw) * x == x - draw * x;
  }

  lemma {:induction false} JitteredBounded(d: int, draw: real)
    requires 0.0 <= draw < 1.0 && d >= 0
    ensures 19 * d <= 20 * Jittered(d, draw) <= 21 * d
  {
    hide PartOf, Trunc;
    var jitter := d as real * 0.1;
    PartInRange(jitter, draw);
    TruncTwentieth(PartOf(jitter, draw) - jitter / 2.0, d);
  }

  /** Jitter moves a delay by at most a twentieth. */
  lemma {:induction false} JitterBounded(attempt: nat, draw: real, huge: int)
    requires 0.0 <= draw < 1.0 && Delay(attempt, huge) >= 0
    ensures var d, b := Delay(attempt, huge), BackoffWithJitter(attempt, draw, huge);
            19 * d <= 20 * b <= 21 * d
  {
    hide Delay, Jittered;
    JitteredBounded(Delay(attempt, huge), draw);
  }

  /** What the draw makes of a delay. A draw of one half leaves it as it is; a greater draw never
      gives a shorter wait; and the wait is off the straight line from 95 to 105 percent of the delay
      by less than a nanosecond, towards the delay. */
  lemma {:induction false} JitterFollowsDraw(attempt: nat, draw: real, draw': real, huge: int)
    requires 0.0 <= draw <= draw' < 1.0 && Delay(attempt, huge) >= 0
    ensures BackoffWithJitter(attempt, 0.5, huge) == Delay(attempt, huge)
    ensures BackoffWithJitter(attempt, draw, huge) <= BackoffWithJitter(attempt, draw', huge)
    ensures var d := Delay(attempt, huge);
            var moved, line := (BackoffWithJitter(attempt, draw, huge) - d) as real, draw * (d as real * 0.1) - d as real * 0.05;
            if line >= 0.0 then moved <= line < moved + 1.0 else moved - 1.0 < line <= moved
  {
    hide Delay;
    JitteredFollowsDraw(Delay(attempt, huge), draw, draw');
    JitteredHalf(Delay(attempt, huge));
  }

  lemma {:induction false} JitteredHalf(d: int)
    ensures Jittered(d, 0.5) == d
  {
    var jitter := d as real * 0.1;
    assert PartOf(jitter, 0.5) == jitter / 2.0;
  }

  lemma {:induction false} PartGrows(x: real, draw: real, draw': real)
    requires draw <= draw' && x >= 0.0
    ensures PartOf(x, draw) <= PartOf(x, draw')
  {
    ProductOfNonNegatives(draw' - draw, x);
    assert (draw' - draw) * x == draw' * x - draw * x;
  }

  lemma {:induction false} TruncTowardZero(x: real)
    ensures if x >= 0.0 then Trunc(x) as real <= x < Trunc(x) as real + 1.0 else Trunc(x) as real - 1.0 < x <= Trunc(x) as real
  {
  }

  lemma {:induction false} TruncGrows(x: real, y: real)
    requires x <= y
    ensures Trunc(x) <= Trunc(y)
  {
  }

  lemma {:induction false} JitteredFollowsDraw(d: int, draw: real, draw': real)
    requires 0.0 <= draw <= draw' < 1.0 && d >= 0
    ensures Jittered(d, draw) <= Jittered(d, draw')
    ensures var moved, line := (Jittered(d, draw) - d) as real, PartOf(d as real * 0.1, draw) - d as real * 0.05;
            if line >= 0.0 then moved <= line < moved + 1.0 else moved - 1.0 < line <= moved
  {
    hide PartOf, Trunc;
    var jitter := d as real * 0.1;
    PartGrows(jitter, draw, draw');
    TruncGrows(PartOf(jitter, draw) - jitter / 2.0, PartOf(jitter, draw') - jitter / 2.0);
    assert jitter / 2.0 == d as real * 0.05;
    TruncTowardZero(PartOf(jitter, draw) - jitter / 2.0);
  }

  /** Within five percent of `total`. */
  predicate InBand(slept: int, total: int) {
    19 * total <= 20 * slept <= 21 * total
  }

  lemma {:induction false} BandHolds(draws: seq<real>, huge: int)
    requires Draws(draws) && |draws| <= 35
    ensures InBand(Slept(draws, huge), IdealTotal(|draws|))
  {
    if draws != [] {
      var n := |draws| - 1;
      BandHolds(draws[..n], huge);
      DelayIsIdeal(n, huge);
      assert Ideal(n) >= 0;
      JitterBounded(n, draws[n], huge);
    }
  }

  lemma {:induction false} TwentiethFloor(d: nat)
    ensures (d as real / 20.0).Floor == d / 20
  {
    var q, r := d / 20, d % 20;
    assert d == 20 * q + r;
    assert d as real / 20.0 == q as real + r as real / 20.0;
  }

  lemma {:induction false} JitteredLowest(d: int)
    ensures Jittered(d, 0.0) == if d >= 0 then d - d / 20 else d + (-d) / 20
  {
    var x := PartOf(d as real * 0.1, 0.0) - d as real * 0.1 / 2.0;
    assert x == -(d as real / 20.0);
    if d >= 0 {
      TwentiethFloor(d);
    } else {
      TwentiethFloor(-d);
      assert x == (-d) as real / 20.0;
    }
  }

  /** With every draw at zero a delay loses a whole twentieth, so it stays under that of the cap. */
  lemma {:induction false} LowestDraw(attempt: nat, huge: int)
    ensures attempt <= 34 ==> 20 * Sleep(BackoffWithJitter(attempt, 0.0, huge)) == 19 * Ideal(attempt)
    ensures attempt >= 35 ==> 20 * Sleep(BackoffWithJitter(attempt, 0.0, huge)) <= 19 * MAX_DELAY
    ensures attempt == 35 ==> Sleep(BackoffWithJitter(attempt, 0.0, huge)) == 0
  {
    hide Jittered, Delay;
    JitteredLowest(Delay(attempt, huge));
    if attempt <= 34 {
      DelayIsIdeal(attempt, huge);
      IdealDivides(attempt);
    }
    if attempt == 35 {
      DelayWraps(huge);
    }
  }

  lemma {:induction false} IdealDivides(attempt: nat)
    ensures Ideal(attempt) >= 0 && Ideal(attempt) % 20 == 0
  {
    if 0 < attempt < 5 {
      assert Pow2(attempt - 1) * SECOND == 20 * (Pow2(attempt - 1) * 50_000_000);
    }
  }

  function Zeros(n: nat): seq<real> {
    seq(n, i => 0.0)
  }

  lemma {:induction false} ZerosFallShort(n: nat, huge: int)
    ensures n <= 35 ==> 20 * Slept(Zeros(n), huge) == 19 * IdealTotal(n)
    ensures n >= 36 ==> 20 * Slept(Zeros(n), huge) <= 19 * IdealTotal(n) - 19 * MAX_DELAY
  {
    if n > 0 {
      assert Zeros(n)[..n - 1] == Zeros(n - 1);
      ZerosFallShort(n - 1, huge);
      LowestDraw(n - 1, huge);
    }
  }

  /** The whole sleep before giving up after `n` retries stays within five percent of the intended
      total for every draw exactly when `n` is at most 35. */
  lemma {:induction false} BackoffBand(n: nat, huge: int)
    ensures (forall draws | |draws| == n && Draws(draws) :: InBand(Slept(draws, huge), IdealTotal(n))) <==> n <= 35
  {
    if n <= 35 {
      forall draws | |draws| == n && Draws(draws) ensures InBand(Slept(draws, huge), IdealTotal(n)) {
        BandHolds(draws, huge);
      }
    } else {
      ZerosFallShort(n, huge);
      assert |Zeros(n)| == n && Draws(Zeros(n));
      assert !InBand(Slept(Zeros(n), huge), IdealTotal(n));
    }
  }

  // ---------- the loop ----------

  /** How often the loop may retry: a negative setting works like zero. */
  function Retries(connAttempts: int): nat {
    if connAttempts < 0 then 0 else connAttempts
  }

  /** The acquire loop of `setupDB`. It gives up only after its last allowed attempt, sleeps once
      between two attempts, and within 35 retries sleeps the intended total give or take five percent. */
  method AcquireConn(connAttempts: int, huge: int) returns (ok: bool, acquires: nat, slept: nat, ghost draws: seq<real>)
    ensures var retries := if connAttempts < 0 then 0 else connAttempts;
            1 <= acquires <= retries + 1 && (!ok ==> acquires == retries + 1)
    ensures |draws| == acquires - 1 && Draws(draws) && slept == Slept(draws, huge)
    ensures acquires <= 36 ==> InBand(slept, IdealTotal(acquires - 1))
  {
    var attempt := 0;
    acquires, slept, draws := 0, 0, [];
    while true
      invariant attempt == acquires == |draws| <= Retries(connAttempts)
      invariant Draws(draws) && slept == Slept(draws, huge)
      decreases Retries(connAttempts) - attempt
    {
      ok := *;
      acquires := acquires + 1;
      if ok {
        break;
      }
      if attempt >= connAttempts {
        break;
      }
      var draw: real := *;
      if !(0.0 <= draw < 1.0) {
        draw := 0.0;
      }
      var backoff := BackoffWithJitter(attempt, draw, huge);
      slept := slept + Sleep(backoff);
      assert (draws + [draw])[..|draws|] == draws;
      draws := draws + [draw];
      attempt := attempt + 1;
    }
    if acquires <= 36 {
      BandHolds(draws, huge);
    }
  }
}
