/** Low-order bits of natural numbers: `x & (2^d - 1)` is `x % Pow2(d)` and `x & 2^d` tests `Bit(x, d)`. */
module Bits {
  function Pow2(n: nat): (p: nat)
    ensures 1 <= p
  {
    if n == 0 then 1 else 2 * Pow2(n - 1)
  }

  function Low(x: nat, d: nat): nat {
    x % Pow2(d)
  }

  function Bit(x: nat, d: nat): bool {
    (x / Pow2(d)) % 2 == 1
  }

  lemma DivModUnique(x: int, n: int, q: int, r: int)
    requires 0 < n && 0 <= r < n && x == n * q + r
    ensures x / n == q && x % n == r
  {
    var q', r' := x / n, x % n;
    assert n * (q - q') == r' - r;
    MultipleIsFar(n, q - q');
  }

  lemma MultipleIsFar(n: int, k: int)
    requires 0 < n
    ensures k >= 1 ==> n * k >= n
    ensures k <= -1 ==> n * k <= -n
  {
  }

  lemma LowSplit(x: nat, d: nat)
    ensures Low(x, d + 1) == Low(x, d) + if Bit(x, d) then Pow2(d) else 0
  {
    var m := Pow2(d);
    var q, r := x / m, x % m;
    var b := q % 2;
    var h := q / 2;
    assert x == m * q + r;
    assert q == 2 * h + b;
    assert m * q == m * (2 * h) + m * b;
    assert m * (2 * h) == (2 * m) * h;
    assert 0 <= m * b + r < 2 * m;
    DivModUnique(x, 2 * m, h, m * b + r);
  }

  /** Agreement on d + 1 bits is agreement on d bits and on bit d. */
  lemma LowStep(x: nat, y: nat, d: nat)
    ensures Low(x, d + 1) == Low(y, d + 1) <==> Low(x, d) == Low(y, d) && Bit(x, d) == Bit(y, d)
  {
    LowSplit(x, d);
    LowSplit(y, d);
  }

  lemma {:induction false} LowMonotone(x: nat, y: nat, d: nat, e: nat)
    requires d <= e && Low(x, e) == Low(y, e)
    ensures Low(x, d) == Low(y, d)
    decreases e - d
  {
    if d < e {
      LowMonotone(x, y, d + 1, e);
      LowStep(x, y, d);
    }
  }

  lemma LowLow(x: nat, g: nat, d: nat)
    requires d <= g
    ensures Low(Low(x, g), d) == Low(x, d)
  {
    var l := Low(x, g);
    assert Low(l, g) == l by { DivModUnique(l, Pow2(g), 0, l); }
    LowMonotone(l, x, d, g);
  }

  /** Adding 2^g leaves the low d <= g bits alone. */
  lemma LowShift(i: nat, g: nat, d: nat)
    requires d <= g
    ensures Low(i + Pow2(g), d) == Low(i, d)
  {
    var m := Pow2(g);
    DivModUnique(i + m, m, i / m + 1, i % m);
    LowMonotone(i + m, i, d, g);
  }

  lemma LowOfSmall(i: nat, g: nat)
    requires i < Pow2(g)
    ensures Low(i, g) == i
  {
    DivModUnique(i, Pow2(g), 0, i);
  }

  lemma {:induction false} Pow2Increases(d: nat, g: nat)
    requires d <= g
    ensures Pow2(d) <= Pow2(g)
    decreases g
  {
    if d < g { Pow2Increases(d, g - 1); }
  }

  /** Cutting to g bits keeps bit d < g. */
  lemma BitLow(x: nat, g: nat, d: nat)
    requires d < g
    ensures Bit(Low(x, g), d) == Bit(x, d)
  {
    LowLow(x, g, d + 1);
    LowStep(Low(x, g), x, d);
  }

  lemma {:induction false} Pow2Exceeds(n: nat)
    ensures n < Pow2(n)
  {
    if n > 0 { Pow2Exceeds(n - 1); }
  }
}
