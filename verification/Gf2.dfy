/** Division of polynomials over GF(2) by the Mode-S generator. A polynomial is the sequence of its
    coefficients, highest power first. */
module Gf2 {
  import opened BitStrings

  type Reg = r: seq<bool> | |r| == 24 witness Zeros(24)

  // a generator of degree 24 with a constant term
  type Generator = g: seq<bool> | |g| == 25 && g[0] && g[24] witness [true] + Zeros(23) + [true]

  /** The product of q and the generator: one shifted copy of the generator per coefficient of q. */
  function Times(g: Generator, q: seq<bool>): (p: seq<bool>)
    ensures |p| == |q| + 24
  {
    if q == [] then Zeros(24)
    else
      var n := |q| - 1;
      Xor(Times(g, q[..n]) + [false], Zeros(n) + Multiple(g, q[n]))
  }

  function Multiple(g: Generator, bit: bool): (s: seq<bool>)
    ensures |s| == 25
  {
    if bit then g else Zeros(25)
  }

  /** One step of long division: bring down the next coefficient, then cancel the leading one. */
  function Step(g: Generator, r: Reg, bit: bool): (s: Reg)
    ensures forall i | 0 <= i < 24 :: s[i] == ((r + [bit])[i + 1] != (r[0] && g[i + 1]))
  {
    Xor(r + [bit], Multiple(g, r[0]))[1..]
  }

  lemma StepShift(g: Generator, r: Reg)
    requires !r[0]
    ensures Step(g, r, false) == r[1..] + [false]
  {
  }

  /** The register after bringing down the coefficients p one by one. */
  function Steps(g: Generator, r: Reg, p: seq<bool>): Reg {
    if p == [] then r else Step(g, Steps(g, r, p[..|p| - 1]), p[|p| - 1])
  }

  function Rem(g: Generator, p: seq<bool>): Reg {
    Steps(g, Zeros(24), p)
  }

  function Quotient(g: Generator, p: seq<bool>): (q: seq<bool>)
    requires |p| >= 24
    ensures |q| == |p| - 24
  {
    if |p| == 24 then []
    else
      var p' := p[..|p| - 1];
      Quotient(g, p') + [Rem(g, p')[0]]
  }

  /** Up to 24 coefficients nothing is cancelled: the remainder is the polynomial itself. */
  lemma {:induction false} ShortRem(g: Generator, p: seq<bool>)
    requires |p| <= 24
    ensures Rem(g, p) == Zeros(24 - |p|) + p
  {
    if p != [] {
      ShortRem(g, p[..|p| - 1]);
    }
  }

  /** The division step: if p == t + r then p followed by bit is the new multiple plus the new register. */
  lemma DivisionStep(g: Generator, p: seq<bool>, t: seq<bool>, r: Reg)
    requires |p| == |t| + 1 > 24
    requires p[..|t|] == Xor(t, Zeros(|t| - 24) + r)
    ensures p == Xor(Xor(t + [false], Zeros(|t| - 24) + Multiple(g, r[0])), Zeros(|t| - 23) + Step(g, r, p[|t|]))
  {
    var k, bit := |t| - 24, p[|t|];
    var m := Zeros(k) + Multiple(g, r[0]);
    var x := Xor(t + [false], m);
    var z' := Zeros(k) + r;
    var z := Zeros(k + 1) + Step(g, r, bit);
    forall i | 0 <= i < |p| ensures p[i] == (x[i] != z[i]) {
      assert x[i] == ((t + [false])[i] != m[i]);
      if i < |t| { assert p[i] == p[..|t|][i] == (t[i] != z'[i]); }
      if i > k { assert z[i] == Step(g, r, bit)[i - k - 1] == ((r + [bit])[i - k] != (r[0] && g[i - k])); }
    }
  }

  /** Division with remainder: p == q * G + r with r of degree below 24. */
  lemma {:induction false} DivisionTheorem(g: Generator, p: seq<bool>)
    requires |p| >= 24
    ensures p == Xor(Times(g, Quotient(g, p)), Zeros(|p| - 24) + Rem(g, p))
  {
    if |p| == 24 {
      ShortRem(g, p);
      assert Zeros(0) + Rem(g, p) == p && Times(g, []) == Zeros(24);
    } else {
      var p' := p[..|p| - 1];
      DivisionTheorem(g, p');
      DivisionStep(g, p, Times(g, Quotient(g, p')), Rem(g, p'));
      TimesAppend(g, Quotient(g, p'), Rem(g, p')[0]);
    }
  }

  lemma TimesAppend(g: Generator, q: seq<bool>, bit: bool)
    ensures Times(g, q + [bit]) == Xor(Times(g, q) + [false], Zeros(|q|) + Multiple(g, bit))
  {
    assert (q + [bit])[..|q|] == q;
  }

  lemma StepLinear(g: Generator, r: Reg, s: Reg, a: bool, b: bool)
    ensures Step(g, Xor(r, s), a != b) == Xor(Step(g, r, a), Step(g, s, b))
  {
    var x, y := Step(g, Xor(r, s), a != b), Xor(Step(g, r, a), Step(g, s, b));
    forall i | 0 <= i < 24 ensures x[i] == y[i] {
      assert (Xor(r, s) + [a != b])[i + 1] == ((r + [a])[i + 1] != (s + [b])[i + 1]);
    }
  }

  lemma {:induction false} StepsLinear(g: Generator, r: Reg, s: Reg, a: seq<bool>, b: seq<bool>)
    requires |a| == |b|
    ensures Steps(g, Xor(r, s), Xor(a, b)) == Xor(Steps(g, r, a), Steps(g, s, b))
  {
    if a != [] {
      var n := |a| - 1;
      StepsLinear(g, r, s, a[..n], b[..n]);
      assert Xor(a, b)[..n] == Xor(a[..n], b[..n]);
      StepLinear(g, Steps(g, r, a[..n]), Steps(g, s, b[..n]), a[n], b[n]);
    }
  }

  lemma StepsLast(g: Generator, r: Reg, p: seq<bool>, bit: bool)
    ensures Steps(g, r, p + [bit]) == Step(g, Steps(g, r, p), bit)
  {
    assert (p + [bit])[..|p|] == p;
  }

  lemma {:induction false} StepsAppend(g: Generator, r: Reg, a: seq<bool>, b: seq<bool>)
    ensures Steps(g, r, a + b) == Steps(g, Steps(g, r, a), b)
  {
    if b == [] {
      assert a + b == a;
    } else {
      var b', bit := b[..|b| - 1], b[|b| - 1];
      calc {
        Steps(g, r, a + b);
        { assert a + b == (a + b') + [bit]; }
        Steps(g, r, (a + b') + [bit]);
        { StepsLast(g, r, a + b', bit); }
        Step(g, Steps(g, r, a + b'), bit);
        { StepsAppend(g, r, a, b'); }
        Step(g, Steps(g, Steps(g, r, a), b'), bit);
        Steps(g, Steps(g, r, a), b);
      }
    }
  }

  lemma RemLinear(g: Generator, a: seq<bool>, b: seq<bool>)
    requires |a| == |b|
    ensures Rem(g, Xor(a, b)) == Xor(Rem(g, a), Rem(g, b))
  {
    StepsLinear(g, Zeros(24), Zeros(24), a, b);
    assert Xor(Zeros(24), Zeros(24)) == Zeros(24);
  }

  lemma {:induction false} RemZeros(g: Generator, n: nat)
    ensures Rem(g, Zeros(n)) == Zeros(24)
  {
    if n > 0 {
      RemZeros(g, n - 1);
      assert Zeros(n)[..n - 1] == Zeros(n - 1);
    }
  }

  /** Leading zero coefficients change nothing. */
  lemma RemLeadingZeros(g: Generator, n: nat, p: seq<bool>)
    ensures Rem(g, Zeros(n) + p) == Rem(g, p)
  {
    RemZeros(g, n);
    StepsAppend(g, Zeros(24), Zeros(n), p);
  }

  lemma RemGenerator(g: Generator)
    ensures Rem(g, g) == Zeros(24)
  {
    var r: Reg := g[..24];
    ShortRem(g, r);
    assert Zeros(0) + r == r;
    assert g == r + [true];
    StepsLast(g, Zeros(24), r, true);
    assert Step(g, r, true) == Zeros(24);
  }

  lemma {:induction false} RemTimes(g: Generator, q: seq<bool>)
    ensures Rem(g, Times(g, q)) == Zeros(24)
  {
    if q == [] {
      RemZeros(g, 24);
    } else {
      var n := |q| - 1;
      var t := Times(g, q[..n]);
      RemTimes(g, q[..n]);
      assert (t + [false])[..n + 24] == t;
      RemLinear(g, t + [false], Zeros(n) + Multiple(g, q[n]));
      RemLeadingZeros(g, n, Multiple(g, q[n]));
      RemGenerator(g);
      RemZeros(g, 25);
    }
  }

  /** Remainder zero is divisibility by the generator. */
  lemma Divisibility(g: Generator, p: seq<bool>)
    requires |p| >= 24
    ensures Rem(g, p) == Zeros(24) <==> exists q :: |q| == |p| - 24 && p == Times(g, q)
  {
    DivisionTheorem(g, p);
    if Rem(g, p) == Zeros(24) {
      assert p == Times(g, Quotient(g, p));
    }
    forall q | p == Times(g, q) ensures Rem(g, p) == Zeros(24) {
      RemTimes(g, q);
    }
  }

  lemma StepInjective(g: Generator, r: Reg)
    ensures Step(g, r, false) == Zeros(24) <==> r == Zeros(24)
  {
    var s := Step(g, r, false);
    if s == Zeros(24) {
      assert !s[23] && (r + [false])[24] == false;
      assert !r[0];
      forall i | 0 < i < 24 ensures !r[i] {
        assert !s[i - 1] && (r + [false])[i] == r[i];
      }
    }
  }

  lemma {:induction false} ShiftedOut(g: Generator, r: Reg, n: nat)
    ensures Steps(g, r, Zeros(n)) == Zeros(24) <==> r == Zeros(24)
  {
    if n > 0 {
      ShiftedOut(g, r, n - 1);
      assert Zeros(n)[..n - 1] == Zeros(n - 1);
      StepInjective(g, Steps(g, r, Zeros(n - 1)));
    }
  }

  /** The generator has constant term 1, so appending zeros never turns a non-zero remainder into zero. */
  lemma TrailingZeros(g: Generator, p: seq<bool>, n: nat)
    ensures Rem(g, p + Zeros(n)) == Zeros(24) <==> Rem(g, p) == Zeros(24)
  {
    StepsAppend(g, Zeros(24), p, Zeros(n));
    ShiftedOut(g, Rem(g, p), n);
  }

  /** e is non-zero and its non-zero coefficients lie among 24 consecutive ones. */
  ghost predicate IsBurst(e: seq<bool>, start: nat) {
    && (exists i :: 0 <= i < |e| && e[i])
    && forall i | 0 <= i < |e| && e[i] :: start <= i < start + 24
  }

  lemma WindowRem(g: Generator, w: seq<bool>, before: nat, after: nat)
    requires |w| <= 24 && exists i :: 0 <= i < |w| && w[i]
    ensures Rem(g, Zeros(before) + w + Zeros(after)) != Zeros(24)
  {
    var at :| 0 <= at < |w| && w[at];
    ShortRem(g, w);
    assert (Zeros(24 - |w|) + w)[24 - |w| + at];
    RemLeadingZeros(g, before, w);
    TrailingZeros(g, Zeros(before) + w, after);
  }

  lemma ZeroOutside(e: seq<bool>, start: nat, end: nat)
    requires start <= end <= |e|
    requires forall i | 0 <= i < |e| && e[i] :: start <= i < end
    ensures e == Zeros(start) + e[start..end] + Zeros(|e| - end)
  {
    var z := Zeros(start) + e[start..end];
    assert e[..end] == z;
    assert e[end..] == Zeros(|e| - end);
    assert e == e[..end] + e[end..];
  }

  /** The 24 coefficients, or fewer at the end, that hold a burst. */
  function WindowEnd(e: seq<bool>, start: nat): nat {
    if start + 24 <= |e| then start + 24 else |e|
  }

  lemma BurstWindow(e: seq<bool>, start: nat)
    requires IsBurst(e, start)
    ensures var end := WindowEnd(e, start);
            && start <= end <= |e| && end - start <= 24
            && (exists i :: 0 <= i < end - start && e[start..end][i])
            && forall i | 0 <= i < |e| && e[i] :: start <= i < end
  {
    var at :| 0 <= at < |e| && e[at];
    assert e[start..WindowEnd(e, start)][at - start];
  }

  lemma BurstRem(g: Generator, e: seq<bool>, start: nat)
    requires IsBurst(e, start)
    ensures Rem(g, e) != Zeros(24)
  {
    BurstWindow(e, start);
    hide *;
    var end := WindowEnd(e, start);
    ZeroOutside(e, start, end);
    WindowRem(g, e[start..end], start, |e| - end);
  }
}
