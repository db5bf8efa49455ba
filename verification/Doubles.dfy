/** Whole numbers as 64-bit floating-point numbers: rounding to 53 significant bits, half to even. */
module Doubles {
  import opened BitStrings

  // 2^53
  const EXACT := 0x20_0000_0000_0000

  /** The distance between neighbouring numbers at v: the least power of two that leaves 53 bits. */
  function Unit(v: nat): (u: nat)
    ensures u > 0
  {
    if v < EXACT then 1 else 2 * Unit(v / 2)
  }

  /** v in whole units, rounded to the nearest, a half to the even neighbour. */
  function Rounded(v: nat, u: nat): nat
    requires u > 0
  {
    v / u + if 2 * (v % u) > u || (2 * (v % u) == u && v / u % 2 == 1) then 1 else 0
  }

  function Double(v: nat): nat {
    Rounded(v, Unit(v)) * Unit(v)
  }

  lemma Parts(v: nat, u: nat)
    requires u > 0
    ensures v == v / u * u + v % u && v % u < u
  {
  }

  lemma RoundedParts(v: nat, u: nat)
    requires u > 0
    ensures Rounded(v, u) * u == v - v % u || (2 * (v % u) >= u && Rounded(v, u) * u == v - v % u + u)
    ensures Rounded(v, u) * u == v - v % u ==> 2 * (v % u) <= u
  {
    Parts(v, u);
    assert (v / u + 1) * u == v / u * u + u;
  }

  /** Nothing nearer has 53 bits, and only multiples of the unit are exact. */
  lemma DoubleNear(v: nat)
    ensures -(Unit(v) as int) <= 2 * (Double(v) - v) <= Unit(v)
    ensures Double(v) == v <==> v % Unit(v) == 0
    ensures v < EXACT ==> Double(v) == v
  {
    RoundedParts(v, Unit(v));
  }

  /** Half way between two neighbours it is the even one. */
  lemma TiesToEven(v: nat)
    requires 2 * (v % Unit(v)) == Unit(v)
    ensures Double(v) / Unit(v) % 2 == 0
  {
    var u := Unit(v);
    Parts(v, u);
    hide Unit;
    Quotient(Rounded(v, u), u);
  }

  lemma Quotient(q: nat, u: nat)
    requires u > 0
    ensures q * u / u == q
  {
    Parts(q * u, u);
    BelowQuotient(q * u, u, q + 1);
    if q * u / u < q {
      AtMost(q * u / u + 1, q, u);
    }
  }

  /** The unit is a power of two that the range determines. */
  lemma {:induction false} UnitPower(v: nat, n: nat) returns (k: nat)
    requires v < EXACT * Pow2(n)
    ensures k * Unit(v) == Pow2(n)
    decreases n
  {
    if v < EXACT {
      k := Pow2(n);
    } else {
      assert n > 0;
      k := UnitPower(v / 2, n - 1);
      assert k * (2 * Unit(v / 2)) == 2 * (k * Unit(v / 2));
    }
  }

  /** A 64-bit number rounds to at most 2^64. */
  lemma DoubleBound(v: nat)
    requires v < 0x1_0000_0000_0000_0000
    ensures Double(v) <= 0x1_0000_0000_0000_0000
  {
    assert Pow2(11) == 2048 by {
      assert Pow2(3) == 8 && Pow2(6) == 64 && Pow2(9) == 512;
    }
    var u := Unit(v);
    var k := UnitPower(v, 11);
    hide Unit;
    assert EXACT * k * u == 0x1_0000_0000_0000_0000 by { assert EXACT * k * u == EXACT * (k * u); }
    Parts(v, u);
    BelowQuotient(v, u, EXACT * k);
    AtMost(Rounded(v, u), EXACT * k, u);
  }

  lemma BelowQuotient(v: nat, u: nat, m: nat)
    requires u > 0 && v < m * u
    ensures v / u < m
  {
    Parts(v, u);
    if v / u >= m {
      AtMost(m, v / u, u);
    }
  }

  lemma AtMost(a: nat, b: nat, u: nat)
    requires a <= b
    ensures a * u <= b * u
  {
  }

  /** The 64-bit word that the rounded number leaves is the number itself if and only if it is exact. */
  lemma WordExact(v: nat)
    requires v < 0x1_0000_0000_0000_0000
    ensures Double(v) % 0x1_0000_0000_0000_0000 == v <==> v % Unit(v) == 0
    ensures v < EXACT ==> Double(v) % 0x1_0000_0000_0000_0000 == v
  {
    DoubleNear(v);
    DoubleBound(v);
    hide Double, Unit;
  }

  // ---------- order ----------

  lemma {:induction false} UnitRange(v: nat)
    ensures v < EXACT * Unit(v)
    ensures Unit(v) > 1 ==> 2 * v >= EXACT * Unit(v)
  {
    if v >= EXACT {
      UnitRange(v / 2);
    }
  }

  lemma {:induction false} UnitOrder(v: nat, w: nat)
    requires v <= w
    ensures Unit(v) == Unit(w) || 2 * Unit(v) <= Unit(w)
  {
    if v >= EXACT {
      UnitOrder(v / 2, w / 2);
    }
  }

  lemma RoundedOrder(v: nat, w: nat, u: nat)
    requires u > 0 && v <= w
    ensures Rounded(v, u) <= Rounded(w, u)
  {
    Parts(v, u);
    Parts(w, u);
    BelowOrSame(v / u, w / u, u);
  }

  lemma BelowOrSame(a: nat, b: nat, u: nat)
    requires u > 0
    ensures a > b ==> a * u >= b * u + u
  {
    if a > b {
      AtMost(b + 1, a, u);
    }
  }

  /** Rounding keeps the order: later times never come out earlier. */
  lemma DoubleOrder(v: nat, w: nat)
    requires v <= w
    ensures Double(v) <= Double(w)
  {
    var u, t := Unit(v), Unit(w);
    UnitOrder(v, w);
    UnitRange(v);
    UnitRange(w);
    hide Unit, Rounded;
    if u == t {
      RoundedOrder(v, w, u);
      AtMost(Rounded(v, u), Rounded(w, u), u);
    } else {
      AcrossUnits(v, u, w, t);
    }
  }

  lemma AcrossUnits(v: nat, u: nat, w: nat, t: nat)
    requires 0 < 2 * u <= t && v < EXACT * u && 2 * w >= EXACT * t
    ensures Rounded(v, u) * u <= Rounded(w, t) * t
  {
    hide Rounded;
    AtMostExact(v, u);
    AtMost(Rounded(v, u), EXACT, u);
    HalfExact(w, t);
    AtMost(EXACT / 2, Rounded(w, t), t);
  }

  lemma AtMostExact(v: nat, u: nat)
    requires u > 0 && v < EXACT * u
    ensures Rounded(v, u) <= EXACT
  {
    BelowQuotient(v, u, EXACT);
  }

  lemma HalfExact(w: nat, t: nat)
    requires t > 0 && 2 * w >= EXACT * t
    ensures Rounded(w, t) >= EXACT / 2
  {
    Parts(w, t);
    if w / t < EXACT / 2 {
      AtMost(w / t + 1, EXACT / 2, t);
    }
  }
}
