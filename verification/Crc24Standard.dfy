/** The Mode-S generator of the standard, and the errors that this generator detects. */
module Crc24Standard {
  import opened BitStrings
  import opened Gf2
  import opened Crc24

  /** The exponents of the generator (ICAO Annex 10 Volume IV section 3.1.2.3.3.1.2). */
  predicate IsTerm(k: nat) {
    12 <= k <= 24 || k == 10 || k == 3 || k == 0
  }

  function Standard(): Generator {
    seq(25, i requires 0 <= i < 25 => IsTerm(24 - i))
  }

  /** The decoder's constant is the generator of the standard. */
  lemma GeneratorIsStandard()
    ensures ModeS() == Standard()
  {
    forall i | 0 <= i < 25
      ensures ModeS()[i] == Standard()[i]
    {
      assert i in {0, 1, 2, 3, 4, 5, 6, 7, 8, 9, 10, 11, 12, 13, 14, 15, 16, 17, 18, 19, 20, 21, 22, 23, 24};
    }
  }

  // ---------- errors of an odd number of bits ----------

  function Odd(s: seq<bool>): bool {
    s != [] && s[|s| - 1] != Odd(s[..|s| - 1])
  }

  lemma {:induction false} OddXor(a: seq<bool>, b: seq<bool>)
    requires |a| == |b|
    ensures Odd(Xor(a, b)) == (Odd(a) != Odd(b))
  {
    if a != [] {
      var n := |a| - 1;
      assert Xor(a, b)[..n] == Xor(a[..n], b[..n]);
      OddXor(a[..n], b[..n]);
    }
  }

  lemma OddAppend(s: seq<bool>, bit: bool)
    ensures Odd(s + [bit]) == (Odd(s) != bit)
  {
    assert (s + [bit])[..|s|] == s;
  }

  lemma {:induction false} OddZeros(n: nat)
    ensures !Odd(Zeros(n))
  {
    if n > 0 {
      assert Zeros(n)[..n - 1] == Zeros(n - 1);
      OddZeros(n - 1);
    }
  }

  lemma {:induction false} OddFirst(s: seq<bool>)
    requires s != [] && !s[0]
    ensures Odd(s[1..]) == Odd(s)
  {
    if |s| > 1 {
      var n := |s| - 1;
      OddFirst(s[..n]);
      assert s[1..][..n - 1] == s[..n][1..];
    }
  }

  /** Division by a generator with an even number of terms keeps the parity of the number of terms. */
  lemma {:induction false} OddRem(g: Generator, p: seq<bool>)
    requires !Odd(g)
    ensures Odd(Rem(g, p)) == Odd(p)
  {
    if p == [] {
      OddZeros(24);
    } else {
      var n := |p| - 1;
      var r := Rem(g, p[..n]);
      OddRem(g, p[..n]);
      var x := Xor(r + [p[n]], Multiple(g, r[0]));
      OddAppend(r, p[n]);
      OddZeros(25);
      OddXor(r + [p[n]], Multiple(g, r[0]));
      OddFirst(x);
      assert Rem(g, p) == x[1..];
    }
  }

  lemma OddDigit(s: seq<bool>, a: bool, b: bool, c: bool, d: bool)
    ensures Odd(s + [a, b, c, d]) == (Odd(s) != (a != (b != (c != d))))
  {
    OddAppend(s, a);
    OddAppend(s + [a], b);
    OddAppend(s + [a] + [b], c);
    OddAppend(s + [a] + [b] + [c], d);
    hide Odd;
    assert s + [a, b, c, d] == s + [a] + [b] + [c] + [d];
  }

  lemma Digits()
    ensures ModeS() == [true] + [true, true, true, true] + [true, true, true, true] + [true, true, true, true]
                       + [false, true, false, false] + [false, false, false, false] + [true, false, false, true]
  {
  }

  lemma EvenTerms()
    ensures !Odd(ModeS())
  {
    OddOne();
    Digits();
    hide Odd, ModeS;
    var s0 := [true];
    var s1 := s0 + [true, true, true, true];
    var s2 := s1 + [true, true, true, true];
    var s3 := s2 + [true, true, true, true];
    var s4 := s3 + [false, true, false, false];
    var s5 := s4 + [false, false, false, false];
    OddDigit(s0, true, true, true, true);
    OddDigit(s1, true, true, true, true);
    OddDigit(s2, true, true, true, true);
    OddDigit(s3, false, true, false, false);
    OddDigit(s4, false, false, false, false);
    OddDigit(s5, true, false, false, true);
  }

  lemma OddOne()
    ensures Odd([true])
  {
    assert [true][..0] == [];
  }

  /** An accepted message with any odd number of bits in error is rejected. */
  lemma OddErrorDetected(msg: seq<byte>, error: seq<byte>)
    requires Accepts(ModeS(), msg) && |error| == |msg| && Odd(Message(error))
    ensures !Accepts(ModeS(), XorBytes(msg, error))
  {
    hide ModeS, Accepts, Crc, Message;
    var g := ModeS();
    AcceptsLength(g, msg);
    AcceptsRemainderZero(g, msg);
    AcceptsRemainderZero(g, XorBytes(msg, error));
    MessageXor(msg, error);
    RemLinear(g, Message(msg), Message(error));
    EvenTerms();
    OddRem(g, Message(error));
    OddZeros(24);
    XorZero(Zeros(24), Rem(g, Message(error)));
  }

  lemma AcceptsLength(g: Generator, msg: seq<byte>)
    requires Accepts(g, msg)
    ensures |msg| >= 7
  {
  }
}
