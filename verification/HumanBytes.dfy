/** Formatting a byte count: which unit, and the divisor it stands for. */
module HumanBytes {

  newtype Int64 = x: int | -0x8000_0000_0000_0000 <= x < 0x8000_0000_0000_0000

  const UNIT: Int64 := 1024
  const UNITS := "KMGTPE"

  function Pow1024(n: nat): (p: nat)
    ensures p >= 1
  {
    if n == 0 then 1 else 1024 * Pow1024(n - 1)
  }

  lemma {:induction false} Pow1024Grows(a: nat, b: nat)
    requires a <= b
    ensures Pow1024(a) <= Pow1024(b)
  {
    if a < b { Pow1024Grows(a, b - 1); }
  }

  lemma MulMono(d: nat, a: nat, b: nat)
    requires a <= b
    ensures d * a <= d * b
  {
  }

  /** `m` is the whole part of n over d, without dividing. */
  predicate WholePart(n: nat, d: nat, m: nat) {
    d * m <= n < d * (m + 1)
  }

  lemma WholePartIsQuotient(n: nat, d: nat, m: nat)
    requires d > 0 && WholePart(n, d, m)
    ensures n / d == m
  {
    var q := n / d;
    assert WholePart(n, d, q);
    if q < m { MulMono(d, q + 1, m); }
    if m < q { MulMono(d, m + 1, q); }
  }

  lemma NextUnit(n: nat, d: nat, m: nat)
    requires WholePart(n, d, m)
    ensures WholePart(n, 1024 * d, m / 1024)
  {
    var a := m / 1024;
    MulMono(d, 1024 * a, m);
    MulMono(d, m + 1, 1024 * (a + 1));
    assert 1024 * d * a == d * (1024 * a);
    assert 1024 * d * (a + 1) == d * (1024 * (a + 1));
  }

  lemma SixthPower()
    ensures Pow1024(6) == 0x1000_0000_0000_0000
  {
    assert Pow1024(2) == 0x10_0000;
    assert Pow1024(4) == 0x100_0000_0000;
  }

  /** A whole part of 1024 or more leaves room for one more unit below 2^63. */
  lemma RoomForNextUnit(n: nat, exp: nat, m: nat)
    requires n < 0x8000_0000_0000_0000 && exp <= 5 && m >= 1024 && WholePart(n, Pow1024(exp + 1), m)
    ensures exp < 5 && Pow1024(exp + 2) < 0x8000_0000_0000_0000
  {
    MulMono(Pow1024(exp + 1), 1024, m);
    SixthPower();
    if exp < 5 { Pow1024Grows(exp + 2, 6); }
  }

  /** What is printed: a plain byte count, or the count over 1024^(unit + 1) with that unit's letter. */
  datatype Human = Bytes(n: Int64) | Scaled(n: Int64, div: Int64, unit: nat)

  /** The divisor never overflows, the unit always exists, and the whole part of what is printed is
      between 1 and 1023. */
  method Format(n: Int64) returns (h: Human)
    ensures n < UNIT <==> h.Bytes?
    ensures h.Bytes? ==> h.n == n
    ensures h.Scaled? ==>
      && h.n == n && h.unit < |UNITS|
      && h.div as int == Pow1024(h.unit + 1)
      && 1 <= n as int / h.div as int < UNIT as int
  {
    if n < UNIT { return Bytes(n); }
    var div: Int64, exp := UNIT, 0;
    var m := n / UNIT;
    while m >= UNIT
      invariant div as int == Pow1024(exp + 1) && exp <= 5
      invariant m >= 1 && WholePart(n as int, Pow1024(exp + 1), m as int)
      decreases m
    {
      RoomForNextUnit(n as int, exp, m as int);
      NextUnit(n as int, Pow1024(exp + 1), m as int);
      div := div * UNIT;
      exp := exp + 1;
      m := m / UNIT;
    }
    WholePartIsQuotient(n as int, div as int, m as int);
    h := Scaled(n, div, exp);
  }

  /** n over d in tenths, rounded to nearest, a tie to even: the digits "%.1f" prints of the exact
      quotient. */
  function Tenths(n: nat, d: nat): nat
    requires d > 0
  {
    var q, r := 10 * n / d, 10 * n % d;
    if 2 * r > d || (2 * r == d && q % 2 == 1) then q + 1 else q
  }

  lemma TenNOver(n: nat, d: nat)
    requires d > 0
    ensures var q, r := 10 * n / d, 10 * n % d; 10 * n == d * q + r && r < d
  {
  }

  /** The tenths are the nearest to the exact quotient, and even between two that are as near. */
  lemma TenthsAreNearest(n: nat, d: nat)
    requires d > 0
    ensures var off: int := 2 * (d * Tenths(n, d) - 10 * n);
      0 <= off + d && off <= d && (off == d || off + d == 0 ==> Tenths(n, d) % 2 == 0)
  {
    var q, r := 10 * n / d, 10 * n % d;
    TenNOver(n, d);
    assert d * (q + 1) == d * q + d;
  }

  lemma TimesBound(d: nat, q: nat, bound: nat)
    requires q < bound
    ensures d * q + d <= d * bound
  {
    MulMono(d, q + 1, bound);
  }

  /** Rounding, once the products are only numbers. */
  lemma RoundedTenths(n: nat, d: nat, q: nat, r: nat, dq: nat)
    requires 10 * n == dq + r && r < d && d <= n < 1024 * d
    requires q < 10 ==> dq + d <= 10 * d
    requires q < 10239 ==> dq + d <= 10239 * d
    requires q == 10239 ==> dq == 10239 * d
    requires q > 10239 ==> 10240 * d <= dq
    ensures var tenths := if 2 * r > d || (2 * r == d && q % 2 == 1) then q + 1 else q;
      (tenths == 10240 <==> 20 * n >= 20479 * d) && 10 <= tenths <= 10240
  {
  }

  /** Although the whole part is between 1 and 1023, what is printed can read 1024.0: exactly when the
      count is at least 1023.95 of its unit. Otherwise it reads 1.0 to 1023.9. */
  lemma PrintedTenths(n: nat, d: nat)
    requires d > 0 && 1 <= n / d < 1024
    ensures Tenths(n, d) == 10240 <==> 20 * n >= 20479 * d
    ensures 10 <= Tenths(n, d) <= 10240
  {
    var q, r := 10 * n / d, 10 * n % d;
    TenNOver(n, d);
    WholePartBounds(n, d);
    if q < 10 { TimesBound(d, q, 10); }
    if q > 10239 { MulMono(d, 10240, q); }
    if q < 10239 { TimesBound(d, q, 10239); }
    RoundedTenths(n, d, q, r, d * q);
  }

  lemma WholePartBounds(n: nat, d: nat)
    requires d > 0 && 1 <= n / d < 1024
    ensures d <= n < 1024 * d
  {
    var m := n / d;
    assert d * m <= n < d * m + d;
    MulMono(d, 1, m);
    TimesBound(d, m, 1024);
  }

  /** The input: one byte short of a mebibyte is printed as 1024.0 KiB. */
  lemma ShortOfAMebibyte()
    ensures 1048575 / 1024 == 1023 && Tenths(1048575, 1024) == 10240
  {
  }

  /** The unit is the only one that fits: whoever picks a unit with a whole part between 1 and 1023
      picks this one. */
  lemma UnitIsUnique(n: nat, a: nat, p: nat, b: nat, q: nat)
    requires WholePart(n, Pow1024(a), p) && 1 <= p < 1024
    requires WholePart(n, Pow1024(b), q) && 1 <= q < 1024
    ensures a == b
  {
    if a < b { WholePartFalls(n, a, p, b, q); }
    if b < a { WholePartFalls(n, b, q, a, p); }
  }

  lemma WholePartFalls(n: nat, a: nat, p: nat, b: nat, q: nat)
    requires a < b && p < 1024 && WholePart(n, Pow1024(a), p) && WholePart(n, Pow1024(b), q)
    ensures q == 0
  {
    Pow1024Grows(a + 1, b);
    MulMono(Pow1024(a), p + 1, 1024);
    if q > 0 { MulMono(Pow1024(b), 1, q); }
  }
}
