/** The conversion between CPU operations and RCP cycles: division by a fixed divisor as a multiplication. */
module Pace {
  import opened Arithmetic

  const K := 0x8000_0000_0000_0000_0000  // 2^79
  const MAX64 := 0xFFFF_FFFF_FFFF_FFFF

  /** x = q*d + r, and m is (K + e)/d: what x*m leaves over q whole K's, times d. */
  lemma LeftOver(x: int, q: int, r: int, d: int, m: int, e: int)
    requires x == q * d + r && m * d == K + e
    ensures d * (x * m - q * K) == r * K + x * e
  {
    assert d * (x * m) == x * (m * d);
    assert x * (K + e) == x * K + x * e;
    assert d * (q * K) == (q * d) * K;
    assert d * (x * m - q * K) == d * (x * m) - d * (q * K);
    assert (q * d + r) * K == (q * d) * K + r * K;
  }

  /** m is 2^79/d rounded up, or 0 if that does not fit 64 bits; with e the rounding, maxX is the last 64-bit x with
      x*e no more than 2^79. */
  ghost predicate Reciprocal(d: nat, m: nat, maxX: nat) {
    var e := m * d - K;
    && 1 <= d <= MAX64 && m <= MAX64 && maxX <= MAX64
    && (m > 0 ==> 0 <= e < d)
    && (m > 0 && e > 0 ==> maxX * e <= K && (maxX < MAX64 ==> (maxX + 1) * e > K))
    && (m > 0 && e == 0 ==> maxX == MAX64)
  }

  function Fast(x: nat, d: nat, m: nat, maxX: nat): nat
    requires d > 0
  {
    if m != 0 && x <= maxX then x * m / K else x / d
  }

  lemma TooWide(d: nat, mm: nat)
    requires 1 <= d <= MAX64 && d * (mm - 1) < K && mm > MAX64
    ensures Reciprocal(d, 0, 0) && d * MAX64 < K
  {
    Grows(d, MAX64, mm - 1);
  }

  lemma Narrow(d: nat, mm: nat)
    requires d > 0 && K <= mm * d && mm <= MAX64
    ensures d * MAX64 >= K && mm > 0
  {
    Grows(d, mm, MAX64);
  }

  class PaceDiv {
    var d: nat
    var m: nat
    var maxX: nat

    ghost predicate Valid()
      reads this
    {
      Reciprocal(d, m, maxX)
    }

    ghost function E(): int
      reads this
    {
      m * d - K
    }

    constructor ()
      ensures d == 1 && m == 0 && Valid()
    {
      d, m, maxX := 1, 0, 0;
    }

    method Set(den: nat)
      requires den <= MAX64
      modifies this
      ensures Valid() && d == if den == 0 then 1 else den
      ensures m == 0 <==> d * MAX64 < K
    {
      d := if den != 0 then den else 1;
      var mm := (K + d - 1) / d;
      CeilingIs(d, mm);
      if mm > MAX64 {
        TooWide(d, mm);
        m, maxX := 0, 0;
        return;
      }
      m := mm;
      Narrow(d, mm);
      var e := m * d - K;
      if e == 0 { maxX := MAX64; return; }
      var b := K / e;
      maxX := if b > MAX64 then MAX64 else b;
      LastSafe(e, b);
    }

    /** x / d, by multiplying where that is known to be good. */
    function Div(x: nat): nat
      requires Valid()
      reads this
    {
      assert d > 0;
      Fast(x, d, m, maxX)
    }

    /** The one family of inputs where the multiplication rounds up: x*e is 2^79 exactly, and x one short of a
        multiple of the divisor. */
    ghost predicate Overshoots(x: nat)
      reads this
    {
      m != 0 && x <= maxX && E() > 0 && x * E() == K && (x + 1) % d == 0
    }

    /** The quotient, or one too many exactly where it overshoots. */
    lemma DivIs(x: nat)
      requires Valid()
      ensures Div(x) == x / d + if Overshoots(x) then 1 else 0
    {
      if m != 0 && x <= maxX {
        var e := E();
        Grows(e, x, maxX);
        QuotientIs(x, d, m, e);
        assert e == 0 ==> x * e == 0;
      }
    }

    /** The product fits 128 bits and the quotient 64, so no step of the source wraps. */
    lemma Fits(x: nat)
      requires Valid() && x <= MAX64
      ensures x * m < 0x1_0000_0000_0000_0000_0000_0000_0000_0000 && Div(x) < 0x1_0000_0000_0000_0000
    {
      ProductFits(x, m);
      QuotientFits(x, d);
      DivIs(x);
      if Overshoots(x) { ManyBits(d, m, E()); HalfFits(x, d); }
    }

    /** No operand overshoots, told from the divisor alone: the one that might is 2^79/e. */
    ghost predicate Sharp()
      requires Valid()
      reads this
    {
      m > 0 && E() > 0 && K % E() == 0 ==> K / E() > maxX || (K / E() + 1) % d != 0
    }

    /** Division is exact throughout for exactly those divisors. */
    lemma SharpIsExact()
      requires Valid()
      ensures Sharp() <==> forall x: nat :: Div(x) == x / d
    {
      if Sharp() {
        forall x: nat ensures Div(x) == x / d { NeverOvershoots(x); }
      } else {
        Divide(K, E());
        DivIs(K / E());
      }
    }

    lemma NeverOvershoots(x: nat)
      requires Valid() && Sharp()
      ensures Div(x) == x / d
    {
      DivIs(x);
      if Overshoots(x) { Divides(x, E()); }
    }

    /** With any divisor, operands below 2^79/d are safe. */
    lemma ExactBelow(x: nat)
      requires Valid() && x * d < K
      ensures Div(x) == x / d
    {
      DivIs(x);
      if Overshoots(x) { Grows(x, E(), d); }
    }
  }

  lemma QuotientIs(x: nat, d: nat, m: nat, e: nat)
    requires d > 0 && m * d == K + e && x * e <= K
    ensures x * m / K == x / d + if x * e == K && (x + 1) % d == 0 then 1 else 0
  {
    var q, r := x / d, x % d;
    var p, s := x * m, x * e;
    assert x == q * d + r;
    LeftOver(x, q, r, d, m, e);
    RoundsTo(q, r, d, p, s);
    LastRemainder(x, d, r);
  }

  /** A rounding above zero only happens with divisors above one. */
  lemma ManyBits(d: nat, m: nat, e: nat)
    requires m * d == K + e && 0 < e < d
    ensures d >= 2
  {
  }

  lemma HalfFits(x: nat, d: nat)
    requires d >= 2
    ensures x / d <= x / 2
  {
    if x / d > x / 2 { Grows(x / d, 2, d); }
  }

  lemma ProductFits(x: nat, m: nat)
    requires x <= MAX64 && m <= MAX64
    ensures x * m <= MAX64 * MAX64
  {
    Grows(x, m, MAX64);
    Grows(MAX64, x, MAX64);
  }

  lemma QuotientFits(x: nat, d: nat)
    requires d > 0
    ensures x / d <= x
  {
    if x / d > x { Grows(d, x + 1, x / d); Grows(x + 1, 1, d); }
  }

  lemma CeilingIs(d: nat, mm: nat)
    requires d > 0 && mm == (K + d - 1) / d
    ensures K <= mm * d < K + d && d * (mm - 1) < K
  {
    assert (K + d - 1) == mm * d + (K + d - 1) % d;
    assert d * (mm - 1) == mm * d - d;
  }

  /** 2^79 / e, or the last 64-bit number, is the last operand whose product with e stays within 2^79. */
  lemma LastSafe(e: nat, b: nat)
    requires e > 0 && b == K / e
    ensures var x := if b > MAX64 then MAX64 else b; x * e <= K && (x < MAX64 ==> (x + 1) * e > K)
  {
    Divide(K, e);
    Distribute(e, b, 1);
    if b > MAX64 { Grows(e, MAX64, b); }
  }

  lemma LastRemainder(x: nat, d: nat, r: nat)
    requires d > 0 && r == x % d
    ensures r + 1 == d <==> (x + 1) % d == 0
  {
    var q := x / d;
    assert x == q * d + r;
    if r + 1 == d {
      assert x + 1 == (q + 1) * d;
      Quotient((q + 1) * d, d, q + 1, 0);
    } else {
      Quotient(q * d + r + 1, d, q, r + 1);
    }
  }

  lemma Divides(x: nat, e: nat)
    requires e > 0 && x * e == K
    ensures K % e == 0 && K / e == x
  {
    Quotient(x * e, e, x, 0);
  }

  /** With p - q*K worth (r*K + s)/d and s at most K, p / K is q, or q + 1 if both r and s are as big as they can
      be. */
  lemma RoundsTo(q: nat, r: nat, d: nat, p: nat, s: nat)
    requires d > 0 && r < d && s <= K && d * (p - q * K) == r * K + s
    ensures p / K == q + if s == K && r + 1 == d then 1 else 0
  {
    var n := p - q * K;
    assert d * (K - 1) == d * K - d && d * (K + 1) == d * K + d && d * -1 < 0;
    if n < 0 { Grows(d, n, -1); }
    if s == K && r + 1 == d {
      if n < K { Grows(d, n, K - 1); }
      if n > K { Grows(d, K + 1, n); }
    } else {
      assert K * (r + 1) == r * K + K;
      Grows(K, r + 1, d);
      if n >= K { Grows(d, K, n); }
    }
  }

  /** One divisor that does overshoot: 2^63 / 102961 comes out one too high. */
  lemma TooHigh(p: PaceDiv)
    requires p.Valid() && p.d == 102961 && p.m > 0
    ensures p.Overshoots(0x8000_0000_0000_0000)
    ensures p.Div(0x8000_0000_0000_0000) == 0x8000_0000_0000_0000 / 102961 + 1
  {
    assert p.E() == 65536;
    p.DivIs(0x8000_0000_0000_0000);
  }

  /** The console's own divisors never do. */
  lemma StockIsSharp(p: PaceDiv)
    requires p.Valid() && (p.d == 65536 || p.d == 43691)
    ensures p.Sharp()
  {
    if p.m > 0 {
      if p.d == 65536 { assert p.E() == 0; } else { assert p.E() == 41643; }
    }
  }

  // ---- RCP cycles and CPU operations ----

  lemma CeilAbove(c: nat, o: nat, num: nat, den: nat)
    requires num > 0 && den > 0
    ensures (c * num + den - 1) / den > o <==> c > o * den / num
  {
    Reaches(c * num + den - 1, den, o + 1);
    Reaches(o * den, num, c);
    Distribute(den, o, 1);
  }

  class Clocks {
    var num: nat
    var den: nat
    const divNum: PaceDiv
    const divDen: PaceDiv

    ghost predicate Valid()
      reads this, divNum, divDen
    {
      divNum != divDen && divNum.Valid() && divDen.Valid() && divNum.d == num && divDen.d == den
    }

    ghost predicate Sharp()
      reads this, divNum, divDen
    {
      Valid() && divNum.Sharp() && divDen.Sharp()
    }

    constructor ()
      ensures Valid() && fresh(divNum) && fresh(divDen)
    {
      num, den := 1, 1;
      divNum := new PaceDiv();
      divDen := new PaceDiv();
    }

    method SetPaceRatio(n: nat, d: nat)
      requires n <= MAX64 && d <= MAX64 && divNum != divDen
      modifies this, divNum, divDen
      ensures Valid() && num == (if n == 0 then 1 else n) && den == if d == 0 then 1 else d
      ensures n == 65536 && d == 43691 ==> Sharp()
    {
      num := if n != 0 then n else 1;
      den := if d != 0 then d else 1;
      divNum.Set(num);
      divDen.Set(den);
      if n == 65536 && d == 43691 {
        StockIsSharp(divNum);
        StockIsSharp(divDen);
      }
    }

    /** RCP cycles in CPU operations, rounded up. */
    function CyclesToOps(cyc: nat): nat
      requires Valid()
      reads this, divNum, divDen
    {
      divDen.Div(cyc * num + den - 1)
    }

    /** CPU operations in RCP cycles, rounded down. */
    function OpsToCycles(ops: nat): nat
      requires Valid()
      reads this, divNum, divDen
    {
      divNum.Div(ops * den)
    }

    /** The operations by which c cycles have gone: the least number that lasts as long. */
    lemma OpsAreLeast(cyc: nat, n: nat)
      requires Sharp()
      ensures CyclesToOps(cyc) <= n <==> n * den >= cyc * num
    {
      divDen.NeverOvershoots(cyc * num + den - 1);
      Reaches(cyc * num + den - 1, den, n + 1);
      Distribute(den, n, 1);
    }

    /** The cycles that have gone by operation o: the greatest number that lasts no longer. */
    lemma CyclesAreMost(ops: nat, n: nat)
      requires Sharp()
      ensures n <= OpsToCycles(ops) <==> n * num <= ops * den
    {
      divNum.NeverOvershoots(ops * den);
      Reaches(ops * den, num, n);
    }

    /** The two conversions are adjoint: a cycle count lies beyond an operation count on one side exactly if it does
        on the other. */
    lemma Adjoint(cyc: nat, ops: nat)
      requires Sharp()
      ensures CyclesToOps(cyc) > ops <==> cyc > OpsToCycles(ops)
    {
      divDen.NeverOvershoots(cyc * num + den - 1);
      divNum.NeverOvershoots(ops * den);
      CeilAbove(cyc, ops, num, den);
    }

    /** So they are at any ratio, while the products stay below 2^79 over the divisors. */
    lemma AdjointBelow(cyc: nat, ops: nat)
      requires Valid() && (cyc * num + den - 1) * den < K && ops * den * num < K
      ensures CyclesToOps(cyc) > ops <==> cyc > OpsToCycles(ops)
    {
      divDen.ExactBelow(cyc * num + den - 1);
      divNum.ExactBelow(ops * den);
      CeilAbove(cyc, ops, num, den);
    }

    lemma Monotone(a: nat, b: nat)
      requires Sharp() && a <= b
      ensures CyclesToOps(a) <= CyclesToOps(b)
    {
      var o := CyclesToOps(b);
      Adjoint(a, o);
      Adjoint(b, o);
    }
  }
}
