/** Ticks and durations, with the saturating u64 arithmetic written out. */
module MediaTime {
  const MAX_TICKS: nat := 0xFFFF_FFFF_FFFF_FFFF

  type U64 = x: int | 0 <= x <= 0xFFFF_FFFF_FFFF_FFFF
  type U32 = x: int | 0 <= x <= 0xFFFF_FFFF

  datatype Parts = Parts(secs: nat, nanos: nat)
  type Duration = d: Parts | InRange(d) witness Parts(0, 0)

  predicate InRange(d: Parts) { d.secs <= 0xFFFF_FFFF_FFFF_FFFF && d.nanos < 1_000_000_000 }

  function SatMul(a: nat, b: nat): (r: nat) {
    MulMono(0, a, b);
    if a * b <= 0xFFFF_FFFF_FFFF_FFFF then a * b else MAX_TICKS
  }

  function SatAdd(a: nat, b: nat): (r: nat) { if a + b <= 0xFFFF_FFFF_FFFF_FFFF then a + b else MAX_TICKS }

  function DurationToTicks(d: Parts, timescale: U32): (r: nat) {
    SatAdd(SatMul(d.secs, timescale), SatAdd(SatMul(d.nanos, timescale), 500_000_000) / 1_000_000_000)
  }

  function TicksToDuration(ticks: U64, timescale: U32): (r: Parts) {
    if timescale == 0 then Parts(0, 0) else
      DivNonNegative(ticks, timescale);
      DivNonNegative(SatMul(ticks % timescale, 1_000_000_000), timescale);
      var nanos: nat := SatMul(ticks % timescale, 1_000_000_000) / timescale;
      // u32::try_from keeps any value below 2^32.
      Parts(ticks / timescale, if nanos <= 0xFFFF_FFFF then nanos else 1_000_000_000 - 1)
  }

  lemma DivNonNegative(a: nat, t: nat)
    requires t > 0
    ensures 0 <= a / t <= a
  {
    DivBounds(a, t);
    if a / t < 0 { MulMono(a / t + 1, 0, t); }
    if a / t > a { MulMono(1, t, a / t); }
  }

  // The exact time a duration stands for.
  ghost function Nanoseconds(d: Parts): (n: nat) { d.secs * 1_000_000_000 + d.nanos }

  // Neither conversion's products leave the u64 range, so only whole seconds can saturate.
  lemma ProductsFit(n: nat, k: U64, t: U32)
    requires t > 0 && n < 1_000_000_000
    ensures 0 <= n * t && n * t + 500_000_000 <= 0xFFFF_FFFF_FFFF_FFFF
    ensures 0 <= (k % t) * 1_000_000_000 <= 0xFFFF_FFFF_FFFF_FFFF
  {
    MulMono(n, 1_000_000_000, t);
    MulMono(t, 0xFFFF_FFFF, 1_000_000_000);
    assert k % t < t;
  }

  lemma MulMono(a: int, b: int, c: nat)
    requires a <= b
    ensures a * c <= b * c
  {
  }

  // floor(a / t) by its two inequalities.
  lemma DivIs(a: int, t: int, q: int)
    requires t > 0 && q * t <= a < (q + 1) * t
    ensures a / t == q
  {
    var p, m := a / t, a % t;
    assert a == t * p + m;
    if p < q { MulMono(p + 1, q, t); }
    if p > q { MulMono(q + 1, p, t); }
  }

  lemma DivBounds(a: int, t: int)
    requires t > 0
    ensures (a / t) * t <= a < (a / t + 1) * t
  {
  }

  // A tick count converts to its exact time in nanoseconds, rounded down.
  // Without a timescale it is no time at all.
  lemma TicksRoundDown(k: U64, t: U32)
    ensures Nanoseconds(TicksToDuration(k, t)) == if t > 0 then k * 1_000_000_000 / t else 0
    ensures InRange(TicksToDuration(k, t))
  {
    if t == 0 { return; }
    var s, r := k / t, k % t;
    ProductsFit(0, k, t);
    DivNonNegative(k, t);
    DivBounds(r * 1_000_000_000, t);
    var n := r * 1_000_000_000 / t;
    DivNonNegative(r * 1_000_000_000, t);
    if n >= 1_000_000_000 { MulMono(1_000_000_000, n, t); }
    FloorSplit(k, s, r, t);
  }

  lemma FloorSplit(k: int, s: int, r: int, t: int)
    requires t > 0 && k == t * s + r
    ensures k * 1_000_000_000 / t == s * 1_000_000_000 + r * 1_000_000_000 / t
  {
    var n := r * 1_000_000_000 / t;
    DivBounds(r * 1_000_000_000, t);
    assert k * 1_000_000_000 == (t * s) * 1_000_000_000 + r * 1_000_000_000;
    assert (s * 1_000_000_000 + n) * t == (t * s) * 1_000_000_000 + n * t;
    assert (s * 1_000_000_000 + n + 1) * t == (t * s) * 1_000_000_000 + (n + 1) * t;
    DivIs(k * 1_000_000_000, t, s * 1_000_000_000 + n);
  }

  // Converts to the nearest tick unless the whole seconds overflow.
  ghost predicate Fits(d: Duration, t: U32) { Nearest(d, t) <= 0xFFFF_FFFF_FFFF_FFFF }

  ghost function Nearest(d: Duration, t: U32): (k: int) { (Nanoseconds(d) * t + 500_000_000) / 1_000_000_000 }

  lemma TicksRoundNearest(d: Duration, t: U32)
    requires t > 0
    ensures Nearest(d, t) >= 0
    ensures DurationToTicks(d, t) == if Fits(d, t) then Nearest(d, t) else MAX_TICKS
    ensures Fits(d, t) ==> -500_000_000 < DurationToTicks(d, t) * 1_000_000_000 - Nanoseconds(d) * t <= 500_000_000
  {
    var w, x := d.secs * t, d.nanos * t + 500_000_000;
    MulMono(0, d.secs, t);
    MulMono(0, d.nanos, t);
    ProductsFit(d.nanos, 0, t);
    calc {
      Nanoseconds(d) * t + 500_000_000;
      (d.secs * 1_000_000_000) * t + x;
      w * 1_000_000_000 + x;
    }
    DivBounds(x, 1_000_000_000);
    DivIs(w * 1_000_000_000 + x, 1_000_000_000, w + x / 1_000_000_000);
  }

  /** Ticks survive the trip through a duration exactly when the time lost to whole
      nanoseconds is at most half a tick. */
  lemma {:induction false} TicksRoundTrip(k: U64, t: U32)
    requires t > 0
    ensures DurationToTicks(TicksToDuration(k, t), t) == k <==> (k * 1_000_000_000) % t <= 500_000_000
  {
    var d := TicksToDuration(k, t);
    var lost := (k * 1_000_000_000) % t;
    TicksRoundDown(k, t);
    TicksRoundNearest(d, t);
    assert Nanoseconds(d) * t == k * 1_000_000_000 - lost;
    RoundsBack(k, lost);
  }

  lemma RoundsBack(k: int, lost: int)
    requires 0 <= lost
    ensures (k * 1_000_000_000 - lost + 500_000_000) / 1_000_000_000 == k <==> lost <= 500_000_000
  {
  }

  // ---- The exact timescales -----------------------------------------------------

  ghost function Gcd(a: nat, b: nat): (g: nat)
    requires a + b > 0
    ensures g > 0
    decreases b
  {
    if b == 0 then a else Gcd(b, a % b)
  }

  lemma {:induction false} GcdDivides(a: nat, b: nat)
    requires a + b > 0
    ensures a % Gcd(a, b) == 0 && b % Gcd(a, b) == 0
    decreases b
  {
    if b == 0 {
      assert a == a * 1;
      DivIs(a, a, 1);
    } else {
      GcdDivides(b, a % b);
      DividesBack(a, b, Gcd(b, a % b));
    }
  }

  lemma DividesBack(a: nat, b: nat, g: nat)
    requires g > 0 && b > 0 && b % g == 0 && (a % b) % g == 0
    ensures a % g == 0
  {
    var x, y, q := b / g, (a % b) / g, a / b;
    assert b == g * x && a % b == g * y;
    Distribute(g, x, q, y);
    MultipleMod(g, x * q + y, a);
  }

  lemma DividesMod(a: nat, b: nat, g: nat)
    requires g > 0 && b > 0 && a % g == 0 && b % g == 0
    ensures (a % b) % g == 0
  {
    var x, y, q := b / g, a / g, a / b;
    assert b == g * x && a == g * y;
    Distribute(g, x, -q, y);
    MultipleMod(g, x * -q + y, a % b);
  }

  // Two multiples of g are at least g apart.
  lemma MultiplesApart(m: nat, t: nat, g: nat)
    requires g > 0 && m < t && m % g == 0 && t % g == 0
    ensures m <= t - g
  {
    var x, y := m / g, t / g;
    if x >= y { MulMono(y, x, g); } else { MulMono(x, y - 1, g); }
  }

  lemma Distribute(g: int, x: int, q: int, y: int)
    ensures g * (x * q + y) == (g * x) * q + g * y
  {
  }

  lemma MultipleMod(g: nat, m: int, a: int)
    requires g > 0 && a == g * m
    ensures a % g == 0
  {
    assert m * g == g * m && (m + 1) * g == g * m + g;
    DivIs(a, g, m);
  }

  lemma {:induction false} Bezout(a: nat, b: nat) returns (x: int, y: int)
    requires a + b > 0
    ensures a * x + b * y == Gcd(a, b)
    decreases b
  {
    if b == 0 {
      x, y := 1, 0;
    } else {
      var q := a / b;
      var u, v := Bezout(b, a % b);
      x, y := v, u - q * v;
      BezoutStep(a, b, q, a % b, u, v);
    }
  }

  lemma BezoutStep(a: int, b: int, q: int, m: int, u: int, v: int)
    requires a == b * q + m
    ensures a * v + b * (u - q * v) == b * u + m * v
  {
    assert a * v == (b * q) * v + m * v;
    assert b * (u - q * v) == b * u - (b * q) * v;
  }

  /** Which timescales never lose a tick: those whose largest residue of a nanosecond
      count, t - gcd(t, 10^9), is at most half. Every timescale up to 500,000,001 is one. */
  lemma {:induction false} ExactTimescales(t: U32)
    requires t > 0
    ensures (forall k: U64 :: DurationToTicks(TicksToDuration(k, t), t) == k) <==>
            t - Gcd(1_000_000_000, t) <= 500_000_000
    ensures t <= 500_000_000 + 1 ==> t - Gcd(1_000_000_000, t) <= 500_000_000
  {
    var g := Gcd(1_000_000_000, t);
    if t - g <= 500_000_000 {
      forall k: U64 ensures DurationToTicks(TicksToDuration(k, t), t) == k {
        ResidueBound(k, t);
        TicksRoundTrip(k, t);
      }
    } else {
      var k := LargestResidue(t);
      TicksRoundTrip(k, t);
    }
  }

  lemma {:induction false} ResidueBound(k: nat, t: nat)
    requires t > 0
    ensures (k * 1_000_000_000) % t <= t - Gcd(1_000_000_000, t)
  {
    var g := Gcd(1_000_000_000, t);
    GcdDivides(1_000_000_000, t);
    var n := 1_000_000_000 / g;
    assert 1_000_000_000 == g * n;
    assert g * (n * k) == (g * n) * k;
    MultipleMod(g, n * k, k * 1_000_000_000);
    DividesMod(k * 1_000_000_000, t, g);
    MultiplesApart((k * 1_000_000_000) % t, t, g);
  }

  lemma {:induction false} LargestResidue(t: U32) returns (k: U64)
    requires t > 0
    ensures (k * 1_000_000_000) % t == t - Gcd(1_000_000_000, t) || Gcd(1_000_000_000, t) >= t
  {
    var g := Gcd(1_000_000_000, t);
    var x, y := Bezout(1_000_000_000, t);
    k := (-x) % t;
    var q := (-x) / t;
    assert k < t;
    if g < t {
      // k = -x - t*q, so k * 1_000_000_000 = -g + t * (y - q * 1_000_000_000).
      var j := y - q * 1_000_000_000;
      assert -x == t * q + k;
      calc {
        k * 1_000_000_000;
        (-x - t * q) * 1_000_000_000;
        -(x * 1_000_000_000) - (t * q) * 1_000_000_000;
        { assert 1_000_000_000 * x == g - t * y; assert (t * q) * 1_000_000_000 == t * (q * 1_000_000_000); }
        t * y - g - t * (q * 1_000_000_000);
        { assert t * y - t * (q * 1_000_000_000) == t * j; }
        t * j - g;
      }
      assert (j - 1) * t == t * j - t && (j - 1 + 1) * t == t * j;
      DivIs(k * 1_000_000_000, t, j - 1);
      assert k * 1_000_000_000 == t * (j - 1) + (k * 1_000_000_000) % t;
    }
  }

  // ---- The other direction, and order -----------------------------------------------

  /** A duration survives the trip through ticks to within half a tick and a nanosecond. */
  lemma {:induction false} DurationRoundTrip(d: Duration, t: U32)
    requires t > 0 && Fits(d, t)
    ensures var back := Nanoseconds(TicksToDuration(DurationToTicks(d, t), t));
            -(1_000_000_000 + 2 * t) <= 2 * t * (back - Nanoseconds(d)) <= 1_000_000_000
  {
    var k := DurationToTicks(d, t);
    TicksRoundNearest(d, t);
    TicksRoundDown(k, t);
    var back := k * 1_000_000_000 / t;
    DivBounds(k * 1_000_000_000, t);
    HalfTick(back, Nanoseconds(d), k * 1_000_000_000, t);
  }

  lemma HalfTick(back: int, n: int, x: int, t: nat)
    requires back * t <= x < (back + 1) * t && -500_000_000 < x - n * t <= 500_000_000
    ensures -(1_000_000_000 + 2 * t) <= 2 * t * (back - n) <= 1_000_000_000
  {
    assert 2 * t * (back - n) == 2 * (back * t) - 2 * (n * t);
    assert (back + 1) * t == back * t + t;
  }

  lemma {:induction false} Monotone(a: Duration, b: Duration, j: U64, k: U64, t: U32)
    ensures Nanoseconds(a) <= Nanoseconds(b) ==> DurationToTicks(a, t) <= DurationToTicks(b, t)
    ensures j <= k ==> Nanoseconds(TicksToDuration(j, t)) <= Nanoseconds(TicksToDuration(k, t))
  {
    if t > 0 {
      TicksRoundNearest(a, t);
      TicksRoundNearest(b, t);
      if Nanoseconds(a) <= Nanoseconds(b) {
        MulMono(Nanoseconds(a), Nanoseconds(b), t);
        DivMono(Nanoseconds(a) * t + 500_000_000, Nanoseconds(b) * t + 500_000_000, 1_000_000_000);
      }
      TicksRoundDown(j, t);
      TicksRoundDown(k, t);
      if j <= k { DivMono(j * 1_000_000_000, k * 1_000_000_000, t); }
    }
  }

  lemma DivMono(a: int, b: int, t: int)
    requires t > 0 && a <= b
    ensures a / t <= b / t
  {
    DivBounds(a, t);
    DivBounds(b, t);
    if a / t > b / t { MulMono(b / t + 1, a / t, t); }
  }
}
