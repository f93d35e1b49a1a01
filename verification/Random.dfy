/**
 The kernel's linear congruential generator. Whatever state it starts in, its
 low 31 bits run through all their values, so rand returns every value it can.
 */
module Random {
  import opened Collections

  const MULTIPLIER := 1103515245
  const INCREMENT := 12345
  const ULONG_RANGE := 0x1_0000_0000_0000_0000
  const RAND_RANGE := 32768

  /** What a call of rand makes of `next`. */
  function Next(x: nat): nat {
    (x * MULTIPLIER + INCREMENT) % ULONG_RANGE
  }

  /** What it returns then. */
  function Value(x: nat): nat {
    x / 0x1_0000 % 0x1_0000_0000 % RAND_RANGE
  }

  lemma ValueBound(x: nat)
    ensures Value(x) < RAND_RANGE
  {
  }

  /** `next` after `n` calls. */
  function Seed(x: nat, n: nat): nat {
    if n == 0 then x else Next(Seed(x, n - 1))
  }

  lemma SeedNext(x: nat, n: nat)
    ensures Seed(x, 0) == x && Seed(x, n + 1) == Next(Seed(x, n))
  {
  }

  lemma NextIs(x: nat, q: nat, y: nat)
    requires x * 1103515245 + 12345 == q * 0x1_0000_0000_0000_0000 + y && y < 0x1_0000_0000_0000_0000
    ensures Next(x) == y
  {
    Remainder(q, ULONG_RANGE, y);
  }

  lemma ValueIs(x: nat, a: nat, c: nat, v: nat, low: nat)
    requires x == ((a * 131072 + c) * 32768 + v) * 65536 + low && c < 131072 && v < 32768 && low < 65536
    ensures Value(x) == v
  {
    Remainder((a * 131072 + c) * 32768 + v, 65536, low);
    Remainder(a, 0x1_0000_0000, c * 32768 + v);
    Remainder(c, 32768, v);
  }

  /** The values that the C standard's example of rand gives from 1, the state at boot. */
  lemma FirstValues()
    ensures Value(Seed(1, 1)) == 16838 && Value(Seed(1, 2)) == 5758 && Value(Seed(1, 3)) == 10113
  {
    hide Seed, Next, Value;
    SeedNext(1, 0);
    SeedNext(1, 1);
    SeedNext(1, 2);
    NextIs(1, 0, 1103527590);
    NextIs(1103527590, 0, 1217759518843121895);
    NextIs(1217759518843121895, 72848421, 15426401326682203284);
    ValueIs(1103527590, 0, 0, 16838, 32422);
    ValueIs(1217759518843121895, 4326, 45993, 5758, 45287);
    ValueIs(15426401326682203284, 54805, 76940, 10113, 58516);
  }

  // ----- the same without wrap-around -----

  function Iter(x: nat, n: nat): nat {
    if n == 0 then x else Iter(x, n - 1) * MULTIPLIER + INCREMENT
  }

  lemma {:induction false} SeedIter(x: nat, n: nat)
    requires x < ULONG_RANGE
    ensures Seed(x, n) == Iter(x, n) % ULONG_RANGE
  {
    if n > 0 {
      SeedIter(x, n - 1);
      Reduce(Iter(x, n - 1));
    }
  }

  lemma Reduce(y: nat)
    ensures (y % ULONG_RANGE * MULTIPLIER + INCREMENT) % ULONG_RANGE == (y * MULTIPLIER + INCREMENT) % ULONG_RANGE
  {
    var q, s := y / ULONG_RANGE, y % ULONG_RANGE;
    assert y * MULTIPLIER + INCREMENT == q * MULTIPLIER * ULONG_RANGE + (s * MULTIPLIER + INCREMENT);
    DropMultiple(q * MULTIPLIER, ULONG_RANGE, s * MULTIPLIER + INCREMENT);
  }

  lemma DropMultiple(q: nat, m: nat, s: nat)
    requires m > 0
    ensures (q * m + s) % m == s % m
  {
    var k, r := s / m, s % m;
    assert q * m + s == (q + k) * m + r;
    Remainder(q + k, m, r);
  }

  lemma Remainder(q: nat, m: nat, r: nat)
    requires r < m
    ensures (q * m + r) % m == r && (q * m + r) / m == q
  {
    var x := q * m + r;
    var d := x / m - q;
    assert x == x / m * m + x % m;
    assert d * m == r - x % m;
    MultipleSize(d, m);
  }

  lemma {:induction false} IterPlus(x: nat, m: nat, n: nat)
    ensures Iter(x, m + n) == Iter(Iter(x, m), n)
  {
    if n > 0 {
      IterPlus(x, m, n - 1);
    }
  }

  // ----- powers of two steps at a time -----

  function Mul(k: nat): nat {
    if k == 0 then MULTIPLIER else Mul(k - 1) * Mul(k - 1)
  }

  function Add(k: nat): nat {
    if k == 0 then INCREMENT else (Mul(k - 1) + 1) * Add(k - 1)
  }

  lemma {:induction false} Strides(x: nat, k: nat)
    ensures Iter(x, Pow2(k)) == Mul(k) * x + Add(k)
    decreases k
  {
    if k == 0 {
      assert Iter(x, 1) == Iter(x, 0) * MULTIPLIER + INCREMENT;
    } else {
      var h, a, c := Pow2(k - 1), Mul(k - 1), Add(k - 1);
      Strides(x, k - 1);
      Strides(Iter(x, h), k - 1);
      IterPlus(x, h, h);
      Compose(a, c, x);
    }
  }

  lemma Compose(a: nat, c: nat, x: nat)
    ensures a * (a * x + c) + c == a * a * x + (a + 1) * c
  {
    assert a * (a * x + c) == a * a * x + a * c;
  }

  /** The multiplier is 1 modulo 4 and the increment odd, so `Pow2(k)` steps
      multiply by 1 modulo `Pow2(k + 2)` and add an odd multiple of `Pow2(k)`. */
  lemma {:induction false} Shape(k: nat) returns (u: nat, v: nat)
    ensures Mul(k) == 1 + 4 * Pow2(k) * u && Add(k) == Pow2(k) * (2 * v + 1)
  {
    if k == 0 {
      u, v := 275878811, 6172;
    } else {
      var u0, v0 := Shape(k - 1);
      var p := Pow2(k - 1);
      u := u0 + 2 * p * u0 * u0;
      v := v0 + 2 * p * u0 * v0 + p * u0;
      Squared(p, u0);
      Odd(p, u0, v0);
    }
  }

  lemma Squared(p: nat, u: nat)
    ensures (1 + 4 * p * u) * (1 + 4 * p * u) == 1 + 4 * (2 * p) * (u + 2 * p * u * u)
  {
    var w := p * u;
    assert (1 + 4 * w) * (1 + 4 * w) == 1 + 8 * w + 16 * (w * w);
    assert p * (p * u * u) == w * w;
  }

  lemma Odd(p: nat, u: nat, v: nat)
    ensures (1 + 4 * p * u + 1) * (p * (2 * v + 1)) == 2 * p * (2 * (v + 2 * p * u * v + p * u) + 1)
  {
    var w := p * u;
    assert (2 + 4 * w) * (p * (2 * v + 1)) == 2 * p * ((1 + 2 * w) * (2 * v + 1));
    assert (1 + 2 * w) * (2 * v + 1) == 2 * (v + 2 * w * v + w) + 1;
    assert 2 * p * u * v == 2 * w * v;
  }

  /** Half a period modulo `Pow2(k + 1)` flips the top bit. */
  lemma HalfPeriod(x: nat, k: nat) returns (q: nat)
    ensures Iter(x, Pow2(k)) == q * Pow2(k + 1) + (x + Pow2(k))
  {
    Strides(x, k);
    var u, v := Shape(k);
    var p := Pow2(k);
    q := 2 * (u * x) + v;
    Regroup(p, u, v, x);
  }

  lemma Regroup(p: nat, u: nat, v: nat, x: nat)
    ensures (1 + 4 * p * u) * x + p * (2 * v + 1) == (2 * (u * x) + v) * (2 * p) + (x + p)
  {
    var w := p * (u * x);
    assert (1 + 4 * p * u) * x == x + 4 * w;
    assert (2 * (u * x) + v) * (2 * p) == 4 * w + 2 * (p * v);
    assert p * (2 * v + 1) == 2 * (p * v) + p;
  }

  /** Every residue modulo `Pow2(k)` comes up within `Pow2(k)` steps. */
  lemma {:induction false} FullPeriod(x: nat, k: nat, t: nat) returns (n: nat)
    requires t < Pow2(k)
    ensures n < Pow2(k) && Iter(x, n) % Pow2(k) == t
  {
    hide Iter;
    if k == 0 {
      n := 0;
    } else {
      var p := Pow2(k - 1);
      n := FullPeriod(x, k - 1, t % p);
      var y := Iter(x, n);
      if y % (2 * p) != t {
        SecondHalf(x, n, k - 1, t);
        n := n + p;
      }
    }
  }

  lemma SecondHalf(x: nat, n: nat, k: nat, t: nat)
    requires t < 2 * Pow2(k) && Iter(x, n) % Pow2(k) == t % Pow2(k) && Iter(x, n) % (2 * Pow2(k)) != t
    ensures Iter(x, n + Pow2(k)) % (2 * Pow2(k)) == t
  {
    hide Iter, Pow2;
    var p, y := Pow2(k), Iter(x, n);
    var q, r := Split(y, 2 * p);
    OtherHalf(q, r, t, p);
    var q' := HalfPeriod(y, k);
    IterPlus(x, n, p);
    Doubled(k);
    DropMultiple(q', 2 * p, y + p);
  }

  lemma Doubled(k: nat)
    ensures Pow2(k + 1) == 2 * Pow2(k)
  {
  }

  lemma Split(y: nat, m: nat) returns (q: nat, r: nat)
    requires m > 0
    ensures y == q * m + r && r < m && r == y % m
  {
    q, r := y / m, y % m;
  }

  lemma OtherHalf(q: nat, r: nat, t: nat, p: nat)
    requires p > 0 && r < 2 * p && t < 2 * p && (q * (2 * p) + r) % p == t % p && r != t
    ensures (q * (2 * p) + r + p) % (2 * p) == t
  {
    Residue(q, r, p);
    Residue(0, t, p);
    Shifted(q, r, p);
  }

  lemma Residue(q: nat, r: nat, p: nat)
    requires p > 0 && r < 2 * p
    ensures (q * (2 * p) + r) % p == if r < p then r else r - p
  {
    var h := if r < p then 0 else 1;
    assert q * (2 * p) + r == (2 * q + h) * p + (r - h * p);
    Remainder(2 * q + h, p, r - h * p);
  }

  lemma Shifted(q: nat, r: nat, p: nat)
    requires p > 0 && r < 2 * p
    ensures (q * (2 * p) + r + p) % (2 * p) == if r < p then r + p else r - p
  {
    var h := if r < p then 0 else 1;
    assert q * (2 * p) + r + p == (q + h) * (2 * p) + (r + p - h * (2 * p));
    Remainder(q + h, 2 * p, r + p - h * (2 * p));
  }

  /** From any state, some later call of rand returns `r`. */
  lemma RandReaches(x: nat, r: nat) returns (n: nat)
    requires x < ULONG_RANGE && r < RAND_RANGE
    ensures n > 0 && Value(Seed(x, n)) == r
  {
    Pow31();
    n := FullPeriod(Iter(x, 1), 31, r * 0x1_0000);
    IterPlus(x, 1, n);
    n := n + 1;
    SeedIter(x, n);
    Bits(Iter(x, n), r);
  }

  lemma Pow31()
    ensures Pow2(31) == 0x8000_0000
  {
    assert Pow2(8) == 256;
    assert Pow2(16) == 65536;
    assert Pow2(24) == 0x100_0000;
  }

  lemma Bits(y: nat, r: nat)
    requires y % 0x8000_0000 == r * 0x1_0000 && r < RAND_RANGE
    ensures Value(y % ULONG_RANGE) == r
  {
    var z := y % ULONG_RANGE;
    assert z % 0x8000_0000 == r * 0x1_0000;
    var q, rest := Split(z, 0x8000_0000);
    assert z / 0x1_0000 == q * RAND_RANGE + r;
  }
}
