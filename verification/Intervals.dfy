/** Tick intervals: when a work group or a system is due. */
module Intervals {
  import opened Prelude

  datatype TickInterval = TickInterval(every: uint32, offset: uint32) {
    /** The offset as the gate uses it. */
    function Phase(): nat { if every == 0 then 0 else offset % every }
  }

  /** The gate, with the 64-bit addition of the tick and the offset written out. */
  predicate ShouldRun(tick: uint64, interval: TickInterval) {
    interval.every == 0 || ((tick + interval.Phase()) % TWO_64) % interval.every == 0
  }

  /** Below this tick the addition inside the gate does not wrap. */
  predicate NoWrap(tick: nat, interval: TickInterval) {
    tick + interval.Phase() < TWO_64
  }

  // ---------------------------------------------------------------------------------------------
  // Modular arithmetic, kept to what the gate needs.

  lemma MulDist(a: int, b: int, c: int)
    ensures a * (b + c) == a * b + a * c
  {
  }

  lemma MulAssoc(a: int, b: int, c: int)
    ensures (a * b) * c == a * (b * c)
  {
  }

  lemma MulMono(d: int, a: int, b: int)
    requires d >= 0 && a <= b
    ensures d * a <= d * b
  {
  }

  /** Quotient and remainder are unique. */
  lemma DivModUnique(x: int, d: int, q: int, r: int)
    requires d > 0 && 0 <= r < d && x == d * q + r
    ensures x / d == q && x % d == r
  {
    var q' := x / d;
    var r' := x % d;
    assert x == d * q' + r';
    if q > q' {
      MulMono(d, q' + 1, q);
      MulDist(d, q', 1);
    } else if q < q' {
      MulMono(d, q + 1, q');
      MulDist(d, q, 1);
    }
  }

  lemma ModShift(x: int, k: int, d: int)
    requires d > 0
    ensures (x + d * k) % d == x % d
  {
    MulDist(d, x / d, k);
    assert x == d * (x / d) + x % d;
    DivModUnique(x + d * k, d, x / d + k, x % d);
  }

  predicate Divides(d: int, x: int)
    requires d > 0
  {
    x % d == 0
  }

  lemma DividesMultiple(d: int, k: int)
    requires d > 0
    ensures Divides(d, d * k)
  {
    ModShift(0, k, d);
  }

  lemma DividesSum(d: int, x: int, y: int)
    requires d > 0 && Divides(d, x)
    ensures Divides(d, y) <==> Divides(d, x + y)
  {
    ModShift(y, x / d, d);
    assert y + d * (x / d) == x + y;
  }

  lemma DividesProduct(d: int, x: int, k: int)
    requires d > 0 && Divides(d, x)
    ensures Divides(d, x * k) && Divides(d, k * x)
  {
    assert x == d * (x / d);
    assert x * k == d * ((x / d) * k) by { MulAssoc(d, x / d, k); }
    DividesMultiple(d, (x / d) * k);
    assert k * x == x * k;
  }

  lemma DividesTransitive(d: int, e: int, x: int)
    requires d > 0 && e > 0 && Divides(d, e) && Divides(e, x)
    ensures Divides(d, x)
  {
    assert x == e * (x / e);
    DividesProduct(d, e, x / e);
  }

  function Gcd(a: nat, b: nat): (g: nat)
    requires a > 0 || b > 0
    ensures g > 0
    decreases b
  {
    if b == 0 then a else Gcd(b, a % b)
  }

  lemma DividesRemainder(g: int, a: int, b: int)
    requires g > 0 && b > 0 && Divides(g, b)
    ensures Divides(g, a % b) <==> Divides(g, a)
  {
    DividesProduct(g, b, a / b);
    assert a == b * (a / b) + a % b;
    DividesSum(g, b * (a / b), a % b);
  }

  lemma {:induction false} GcdDivides(a: nat, b: nat)
    requires a > 0 || b > 0
    ensures Divides(Gcd(a, b), a) && Divides(Gcd(a, b), b)
    decreases b
  {
    if b == 0 {
      ModShift(0, 1, a);
    } else {
      GcdDivides(b, a % b);
      DividesRemainder(Gcd(b, a % b), a, b);
    }
  }

  /** Bezout's identity, with the coefficients returned. */
  lemma {:induction false} Bezout(a: nat, b: nat) returns (x: int, y: int)
    requires a > 0 || b > 0
    ensures a * x + b * y == Gcd(a, b)
    decreases b
  {
    if b == 0 {
      x, y := 1, 0;
    } else {
      var x', y' := Bezout(b, a % b);
      x, y := y', x' - (a / b) * y';
      BezoutStep(a, b, a / b, a % b, x', y');
    }
  }

  lemma BezoutStep(a: int, b: int, q: int, r: int, x: int, y: int)
    requires a == b * q + r
    ensures a * y + b * (x - q * y) == b * x + r * y
  {
    calc {
      a * y + b * (x - q * y);
      (b * q + r) * y + b * x - b * (q * y);
      { MulAssoc(b, q, y); }
      r * y + b * x;
    }
  }

  /** The smallest common multiple of `a` and `b` that is at least `m`. */
  function CommonFrom(a: nat, b: nat, m: nat): (l: nat)
    requires 0 < a && 0 < b && 0 < m <= a * b
    ensures m <= l <= a * b && Divides(a, l) && Divides(b, l)
    ensures forall k: nat :: m <= k < l ==> !(Divides(a, k) && Divides(b, k))
    decreases a * b - m
  {
    DividesMultiple(a, b);
    DividesMultiple(b, a);
    if Divides(a, m) && Divides(b, m) then m
    else CommonFrom(a, b, m + 1)
  }

  function Lcm(a: nat, b: nat): (l: nat)
    requires a > 0 && b > 0
    ensures 0 < l <= a * b && Divides(a, l) && Divides(b, l)
    ensures forall k: nat :: 0 < k < l ==> !(Divides(a, k) && Divides(b, k))
  {
    assert a * b >= 1;
    CommonFrom(a, b, 1)
  }

  /** Every common multiple is a multiple of the least one. */
  lemma LcmDividesCommon(a: nat, b: nat, d: int)
    requires a > 0 && b > 0 && Divides(a, d) && Divides(b, d)
    ensures Divides(Lcm(a, b), d)
  {
    var l := Lcm(a, b);
    var q := d / l;
    DividesProduct(a, l, q);
    DividesProduct(b, l, q);
    assert d == l * q + d % l;
    DividesSum(a, l * q, d % l);
    DividesSum(b, l * q, d % l);
  }

  // ---------------------------------------------------------------------------------------------
  // One gate.

  /** Without wrapping, an interval of period `every` is open on one residue class of ticks. */
  lemma OpenIsDivisible(tick: uint64, interval: TickInterval)
    requires interval.every > 0 && NoWrap(tick, interval)
    ensures ShouldRun(tick, interval) <==> Divides(interval.every, tick + interval.Phase())
  {
    hide TickInterval.Phase;
    SmallRemainder(tick + interval.Phase());
  }

  lemma SmallRemainder(x: uint64)
    ensures x % TWO_64 == x
  {
  }

  /** The only tick of the window starting at `start` on which the gate is open. */
  function NextOpen(start: nat, interval: TickInterval): nat
    requires interval.every > 0
  {
    start + (-(start + interval.Phase())) % interval.every
  }

  /** In every window of `every` consecutive ticks the gate opens exactly once. */
  lemma OpensOncePerWindow(start: nat, interval: TickInterval, tick: uint64)
    requires interval.every > 0
    requires start <= tick < start + interval.every && NoWrap(tick, interval)
    ensures start <= NextOpen(start, interval) < start + interval.every
    ensures ShouldRun(tick, interval) <==> tick == NextOpen(start, interval)
  {
    OpenIsDivisible(tick, interval);
    NextMultiple(start + interval.Phase(), interval.every, tick - start);
  }

  /** Among `s`, ..., `s + e - 1` the only multiple of `e` is at distance `-s % e`. */
  lemma NextMultiple(s: int, e: int, d: int)
    requires e > 0 && 0 <= d < e
    ensures 0 <= (-s) % e < e
    ensures Divides(e, s + d) <==> d == (-s) % e
  {
    var k := (-s) / e;
    assert -s == e * k + (-s) % e;
    if d == (-s) % e {
      DividesMultiple(e, -k);
      assert e * -k == -(e * k);
    } else if Divides(e, s + d) {
      var m := (s + d) / e;
      assert s + d == e * m;
      assert e * -m == -(e * m);
      DivModUnique(-s, e, -m, d);
    }
  }

  /** How often the gate opens on the ticks below `n`. */
  function OpenCount(n: nat, interval: TickInterval): nat
    requires n <= TWO_64
  {
    if n == 0 then 0 else OpenCount(n - 1, interval) + if ShouldRun(n - 1, interval) then 1 else 0
  }

  function CeilDiv(x: nat, d: nat): nat
    requires d > 0
  {
    (x + d - 1) / d
  }

  lemma CeilDivStep(x: nat, d: nat)
    requires d > 0
    ensures CeilDiv(x + 1, d) == CeilDiv(x, d) + if Divides(d, x) then 1 else 0
  {
    var q, r := x / d, x % d;
    assert x == d * q + r;
    if r == 0 {
      DivModUnique(x + d - 1, d, q, d - 1);
      MulDist(d, q, 1);
      DivModUnique(x + d, d, q + 1, 0);
    } else {
      MulDist(d, q, 1);
      DivModUnique(x + d - 1, d, q + 1, r - 1);
      DivModUnique(x + d, d, q + 1, r);
    }
  }

  /** The number of openings on the first `n` ticks, in closed form. */
  lemma {:induction false} OpenCountClosedForm(n: nat, interval: TickInterval)
    requires interval.every > 0 && n + interval.Phase() <= TWO_64
    ensures OpenCount(n, interval)
         == CeilDiv(n + interval.Phase(), interval.every) - CeilDiv(interval.Phase(), interval.every)
  {
    if n > 0 {
      OpenCountClosedForm(n - 1, interval);
      OpenIsDivisible(n - 1, interval);
      CeilDivStep(n - 1 + interval.Phase(), interval.every);
    }
  }

  // ---------------------------------------------------------------------------------------------
  // Two gates in series: a system's interval inside its group's interval.

  predicate BothOpen(tick: uint64, group: TickInterval, system: TickInterval) {
    ShouldRun(tick, group) && ShouldRun(tick, system)
  }

  /** A tick on which both gates are open forces the greatest common divisor to divide the phase gap. */
  lemma BothOpenNeedsGcd(tick: uint64, g: TickInterval, s: TickInterval)
    requires g.every > 0 && s.every > 0 && NoWrap(tick, g) && NoWrap(tick, s)
    requires BothOpen(tick, g, s)
    ensures Divides(Gcd(g.every, s.every), g.Phase() - s.Phase())
  {
    OpenIsDivisible(tick, g);
    OpenIsDivisible(tick, s);
    var d := Gcd(g.every, s.every);
    GcdDivides(g.every, s.every);
    DividesTransitive(d, g.every, tick + g.Phase());
    DividesTransitive(d, s.every, tick + s.Phase());
    DividesProduct(d, tick + s.Phase(), -1);
    DividesSum(d, tick + g.Phase(), -(tick + s.Phase()));
  }

  /**
   * If the greatest common divisor divides the phase gap, some tick below the least common
   * multiple opens both gates.
   */
  lemma GcdGivesBothOpen(g: TickInterval, s: TickInterval) returns (tick: uint64)
    requires g.every > 0 && s.every > 0
    requires Divides(Gcd(g.every, s.every), g.Phase() - s.Phase())
    ensures tick < Lcm(g.every, s.every) && NoWrap(tick, g) && NoWrap(tick, s)
    ensures BothOpen(tick, g, s)
  {
    tick := CommonTick(g.every, s.every, g.Phase(), s.Phase());
    OpenIsDivisible(tick, g);
    OpenIsDivisible(tick, s);
  }

  /** Some number is congruent to `-p` modulo `a` and to `-q` modulo `b`. */
  lemma Meeting(a: nat, b: nat, p: nat, q: nat) returns (u: int)
    requires 0 < a && 0 < b
    requires Divides(Gcd(a, b), p - q)
    ensures Divides(a, u + p) && Divides(b, u + q)
  {
    var d := Gcd(a, b);
    var x, y := Bezout(a, b);
    var k := (p - q) / d;
    assert d * k == p - q;
    hide Gcd, Divides;
    Congruences(a, b, d, x, y, k);
    var m, n := x * k, y * k;
    DividesMultiple(a, m);
    DividesMultiple(b, -n);
    u := a * m - p;
    assert u + p == a * m && u + q == b * -n;
  }

  /** A solution of the two congruences, reduced below the least common multiple. */
  lemma CommonTick(a: uint32, b: uint32, p: nat, q: nat) returns (t: uint64)
    requires 0 < a && 0 < b && p < TWO_32 && q < TWO_32
    requires Divides(Gcd(a, b), p - q)
    ensures t < Lcm(a, b) && t + p < TWO_64 && t + q < TWO_64
    ensures Divides(a, t + p) && Divides(b, t + q)
  {
    hide Gcd, Divides;
    var u := Meeting(a, b, p, q);
    var l := Lcm(a, b);
    hide Lcm;
    Reduce(a, l, u, p);
    Reduce(b, l, u, q);
    ProductFits(a, b);
    RemainderBelow(u, l);
    t := u % l;
  }

  lemma RemainderBelow(u: int, l: int)
    requires l > 0
    ensures 0 <= u % l < l
  {
  }

  lemma Congruences(a: int, b: int, d: int, x: int, y: int, k: int)
    requires a * x + b * y == d
    ensures a * (x * k) + b * (y * k) == d * k
    ensures b * -(y * k) == -(b * (y * k))
  {
    MulAssoc(a, x, k);
    MulAssoc(b, y, k);
    MulDist(k, a * x, b * y);
  }

  /** Reducing modulo a multiple of `a` keeps divisibility by `a`. */
  lemma Reduce(a: int, l: int, u: int, p: int)
    requires a > 0 && l > 0 && Divides(a, l) && Divides(a, u + p)
    ensures Divides(a, u % l + p)
  {
    DividesProduct(a, l, u / l);
    assert u == l * (u / l) + u % l;
    DividesSum(a, l * (u / l), u % l + p);
  }

  lemma ProductFits(a: uint32, b: uint32)
    ensures a * b + TWO_32 <= TWO_64
  {
    MulMono(a, b, TWO_32 - 1);
    MulMono(TWO_32 - 1, a, TWO_32 - 1);
  }

  /** The ticks on which both gates open form one residue class modulo the least common multiple. */
  lemma BothOpenIsOneClass(g: TickInterval, s: TickInterval, t: uint64, u: uint64)
    requires g.every > 0 && s.every > 0
    requires NoWrap(t, g) && NoWrap(t, s) && NoWrap(u, g) && NoWrap(u, s)
    requires BothOpen(t, g, s)
    ensures BothOpen(u, g, s) <==> Divides(Lcm(g.every, s.every), u - t)
  {
    OpenIsDivisible(t, g);
    OpenIsDivisible(t, s);
    OpenIsDivisible(u, g);
    OpenIsDivisible(u, s);
    var l := Lcm(g.every, s.every);
    DividesSum(g.every, t + g.Phase(), u - t);
    DividesSum(s.every, t + s.Phase(), u - t);
    if Divides(g.every, u - t) && Divides(s.every, u - t) {
      LcmDividesCommon(g.every, s.every, u - t);
    } else if Divides(l, u - t) {
      DividesTransitive(g.every, l, u - t);
      DividesTransitive(s.every, l, u - t);
    }
  }

  /** Both gates ever open together exactly when the greatest common divisor divides the phase gap. */
  lemma BothEverOpenIff(g: TickInterval, s: TickInterval)
    requires g.every > 0 && s.every > 0
    ensures (exists t: uint64 :: NoWrap(t, g) && NoWrap(t, s) && BothOpen(t, g, s))
        <==> Divides(Gcd(g.every, s.every), g.Phase() - s.Phase())
  {
    if Divides(Gcd(g.every, s.every), g.Phase() - s.Phase()) {
      var t := GcdGivesBothOpen(g, s);
    } else {
      forall t: uint64 | NoWrap(t, g) && NoWrap(t, s) && BothOpen(t, g, s)
        ensures false
      {
        BothOpenNeedsGcd(t, g, s);
      }
    }
  }
}
