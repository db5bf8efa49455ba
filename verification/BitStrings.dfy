/** Machine words as bit strings, highest bit first, and bytes. */
module BitStrings {
  import opened Arithmetic

  type byte = b: int | 0 <= b < 256

  /** The low n bits of v. */
  function Bits(v: nat, n: nat): (s: seq<bool>)
    ensures |s| == n
  {
    if n == 0 then [] else Bits(v / 2, n - 1) + [v % 2 == 1]
  }

  /** The number a bit string denotes. */
  function Value(s: seq<bool>): nat {
    if s == [] then 0 else 2 * Value(s[..|s| - 1]) + (if s[|s| - 1] then 1 else 0)
  }

  function Pow2(n: nat): (p: nat)
    ensures p > 0
  {
    if n == 0 then 1 else 2 * Pow2(n - 1)
  }

  lemma {:induction false} ValueBound(s: seq<bool>)
    ensures Value(s) < Pow2(|s|)
  {
    if s != [] {
      ValueBound(s[..|s| - 1]);
    }
  }

  lemma {:induction false} BitsOfValue(s: seq<bool>)
    ensures Bits(Value(s), |s|) == s
  {
    if s != [] {
      BitsOfValue(s[..|s| - 1]);
    }
  }

  lemma {:induction false} ValueOfBits(v: nat, n: nat)
    requires v < Pow2(n)
    ensures Value(Bits(v, n)) == v
  {
    if n > 0 {
      ValueOfBits(v / 2, n - 1);
    }
  }

  lemma {:induction false} BitsLow(v: nat, m: nat, n: nat)
    requires n <= m
    ensures Bits(v, m)[m - n..] == Bits(v, n)
  {
    if n > 0 {
      BitsLow(v / 2, m - 1, n - 1);
    }
  }

  /** The bit of this weight. */
  predicate HasBit(v: nat, weight: nat)
    requires weight > 0
  {
    v / weight % 2 == 1
  }

  lemma {:induction false} BitAt(v: nat, n: nat, i: nat)
    requires i < n
    ensures Bits(v, n)[i] == HasBit(v, Pow2(n - 1 - i))
  {
    if i < n - 1 {
      BitAt(v / 2, n - 1, i);
      HalfBit(v, Pow2(n - 2 - i));
    }
  }

  lemma HalfBit(v: nat, weight: nat)
    requires weight > 0
    ensures HasBit(v / 2, weight) == HasBit(v, 2 * weight)
  {
    var q, r := v / 2 / weight, v / 2 % weight;
    assert v / 2 == q * weight + r;
    assert v == q * (2 * weight) + (2 * r + v % 2);
    DivisionUnique(v, 2 * weight, q, 2 * r + v % 2);
  }

  /** The low byte, bit by bit. */
  lemma ByteBits(v: nat)
    ensures Bits(v, 8) == [HasBit(v, 128), HasBit(v, 64), HasBit(v, 32), HasBit(v, 16),
                           HasBit(v, 8), HasBit(v, 4), HasBit(v, 2), HasBit(v, 1)]
  {
    hide HasBit, Bits;
    Powers();
    forall i | 0 <= i < 8
      ensures Bits(v, 8)[i] == HasBit(v, Pow2(7 - i))
    {
      BitAt(v, 8, i);
    }
  }

  lemma Powers()
    ensures Pow2(0) == 1 && Pow2(1) == 2 && Pow2(2) == 4 && Pow2(3) == 8
    ensures Pow2(4) == 16 && Pow2(5) == 32 && Pow2(6) == 64 && Pow2(7) == 128
  {
    assert Pow2(3) == 2 * Pow2(2);
    assert Pow2(5) == 2 * Pow2(4);
  }

  function Zeros(n: nat): (s: seq<bool>)
    ensures |s| == n
    ensures forall i | 0 <= i < n :: !s[i]
  {
    seq(n, _ => false)
  }

  function Xor(a: seq<bool>, b: seq<bool>): (s: seq<bool>)
    requires |a| == |b|
    ensures |s| == |a|
    ensures forall i | 0 <= i < |a| :: s[i] == (a[i] != b[i])
  {
    seq(|a|, i requires 0 <= i < |a| => a[i] != b[i])
  }
}
