/** The CRC on 32-bit machine words, and a squitter that the decoder accepts. */
module Crc24Example {
  import opened BitStrings
  import opened Gf2
  import opened Crc24

  function Half(v: bv32): bv32 {
    v >> 1
  }

  predicate IsOdd(v: bv32) {
    v & 1 != 0
  }

  function Push(v: bv32, bit: bool): bv32 {
    (v << 1) | (if bit then 1 else 0)
  }

  function Plus(v: bv32, w: bv32): bv32 {
    v ^ w
  }

  predicate Below(v: bv32, bound: bv32) {
    v < bound
  }

  predicate Overflows(v: bv32) {
    v & 0x100_0000 != 0
  }

  /** The low n bits of a machine word. */
  function Low(v: bv32, n: nat): (s: seq<bool>)
    ensures |s| == n
    decreases n
  {
    if n == 0 then [] else Low(Half(v), n - 1) + [IsOdd(v)]
  }

  /** One division step on a machine word. */
  function WordStep(v: bv32, bit: bool): bv32 {
    var w := Push(v, bit);
    if Overflows(w) then Plus(w, 0x1FFF409) else w
  }

  function WordByte(v: bv32, a: bool, b: bool, c: bool, d: bool, e: bool, f: bool, g: bool, h: bool): bv32 {
    WordStep(WordStep(WordStep(WordStep(WordStep(WordStep(WordStep(WordStep(v, a), b), c), d), e), f), g), h)
  }

  lemma HalfPlus(v: bv32, w: bv32)
    ensures Half(Plus(v, w)) == Plus(Half(v), Half(w))
    ensures IsOdd(Plus(v, w)) == (IsOdd(v) != IsOdd(w))
  {
  }

  lemma HalfPush(v: bv32, bit: bool)
    requires Below(v, 0x100_0000)
    ensures Half(Push(v, bit)) == v && IsOdd(Push(v, bit)) == bit
  {
  }

  lemma {:induction false} LowXor(v: bv32, w: bv32, n: nat)
    ensures Low(Plus(v, w), n) == Xor(Low(v, n), Low(w, n))
    decreases n
  {
    hide Half, IsOdd, Plus;
    if n > 0 {
      LowXor(Half(v), Half(w), n - 1);
      HalfPlus(v, w);
      XorAppend(Low(Half(v), n - 1), Low(Half(w), n - 1), IsOdd(v), IsOdd(w));
    }
  }

  lemma XorAppend(a: seq<bool>, b: seq<bool>, x: bool, y: bool)
    requires |a| == |b|
    ensures Xor(a + [x], b + [y]) == Xor(a, b) + [x != y]
  {
  }

  lemma LowPush(v: bv32, bit: bool, n: nat)
    requires Below(v, 0x100_0000)
    ensures Low(Push(v, bit), n + 1) == Low(v, n) + [bit]
  {
    hide Half, IsOdd, Push, Below;
    HalfPush(v, bit);
  }

  lemma {:induction false} LowDrop(v: bv32, n: nat)
    ensures Low(v, n + 1)[1..] == Low(v, n)
    decreases n
  {
    hide Half, IsOdd;
    if n > 0 {
      LowDrop(Half(v), n - 1);
      assert Low(v, n + 1)[1..] == Low(Half(v), n)[1..] + [IsOdd(v)];
    }
  }

  lemma {:induction false} LowFirst(v: bv32, n: nat)
    ensures Low(v, n + 1)[0] == IsOdd(Halves(v, n))
    decreases n
  {
    hide Half, IsOdd;
    if n > 0 {
      LowFirst(Half(v), n - 1);
    }
  }

  function Halves(v: bv32, n: nat): bv32
    decreases n
  {
    if n == 0 then v else Halves(Half(v), n - 1)
  }

  lemma {:induction false} HalvesMore(v: bv32, m: nat, n: nat)
    ensures Halves(v, m + n) == Halves(Halves(v, m), n)
    decreases m
  {
    hide Half;
    if m > 0 {
      HalvesMore(Half(v), m - 1, n);
    }
  }

  function Nibble(v: bv32): bv32 {
    v >> 4
  }

  lemma FourHalves(v: bv32)
    ensures Halves(v, 4) == Nibble(v)
  {
    HalfNibble(v);
    hide Half, Nibble;
    assert Halves(v, 4) == Halves(Half(v), 3) == Halves(Half(Half(v)), 2) == Halves(Half(Half(Half(v))), 1);
  }

  lemma HalfNibble(v: bv32)
    ensures Half(Half(Half(Half(v)))) == Nibble(v)
  {
  }

  lemma TopBit(v: bv32)
    ensures Low(v, 25)[0] == Overflows(v)
  {
    hide *;
    LowFirst(v, 24);
    Top(v);
    var v1 := Nibble(v);
    var v2 := Nibble(v1);
    var v3 := Nibble(v2);
    var v4 := Nibble(v3);
    var v5 := Nibble(v4);
    HalvesMore(v, 4, 20); HalvesMore(v1, 4, 16); HalvesMore(v2, 4, 12); HalvesMore(v3, 4, 8); HalvesMore(v4, 4, 4);
    FourHalves(v); FourHalves(v1); FourHalves(v2); FourHalves(v3); FourHalves(v4); FourHalves(v5);
  }

  lemma Top(v: bv32)
    ensures IsOdd(Nibble(Nibble(Nibble(Nibble(Nibble(Nibble(v))))))) == Overflows(v)
  {
  }

  // ---------- the word computation is the division ----------

  lemma GeneratorWord()
    ensures Low(0x1FFF409, 25) == ModeS()
  {
    hide Low, Half, IsOdd;
    LowDigit0(); LowDigit1(); LowDigit2(); LowDigit3(); LowDigit4(); LowDigit5();
    LowOne();
    assert ModeS() == [true] + [true, true, true, true] + [true, true, true, true] + [true, true, true, true]
                      + [false, true, false, false] + [false, false, false, false] + [true, false, false, true];
  }

  lemma LowDigit0()
    ensures Low(0x1FFF409, 25) == Low(0x1FFF40, 21) + [true, false, false, true]
  {
    hide Low;
    LowDigit(0x1FFF409, 0x1FFF40, 21, true, false, false, true);
  }

  lemma LowDigit1()
    ensures Low(0x1FFF40, 21) == Low(0x1FFF4, 17) + [false, false, false, false]
  {
    hide Low;
    LowDigit(0x1FFF40, 0x1FFF4, 17, false, false, false, false);
  }

  lemma LowDigit2()
    ensures Low(0x1FFF4, 17) == Low(0x1FFF, 13) + [false, true, false, false]
  {
    hide Low;
    LowDigit(0x1FFF4, 0x1FFF, 13, false, true, false, false);
  }

  lemma LowDigit3()
    ensures Low(0x1FFF, 13) == Low(0x1FF, 9) + [true, true, true, true]
  {
    hide Low;
    LowDigit(0x1FFF, 0x1FF, 9, true, true, true, true);
  }

  lemma LowDigit4()
    ensures Low(0x1FF, 9) == Low(0x1F, 5) + [true, true, true, true]
  {
    hide Low;
    LowDigit(0x1FF, 0x1F, 5, true, true, true, true);
  }

  lemma LowDigit5()
    ensures Low(0x1F, 5) == Low(1, 1) + [true, true, true, true]
  {
    hide Low;
    LowDigit(0x1F, 1, 1, true, true, true, true);
  }

  lemma LowOne()
    ensures Low(1, 1) == [true]
  {
  }

  /** Four bits, one hexadecimal digit. */
  lemma LowDigit(v: bv32, high: bv32, n: nat, a: bool, b: bool, c: bool, d: bool)
    requires Half(Half(Half(Half(v)))) == high
    requires IsOdd(v) == d && IsOdd(Half(v)) == c && IsOdd(Half(Half(v))) == b && IsOdd(Half(Half(Half(v)))) == a
    ensures Low(v, n + 4) == Low(high, n) + [a, b, c, d]
  {
    hide Half, IsOdd;
    var v3 := Half(v);
    var v2 := Half(v3);
    var v1 := Half(v2);
    assert Low(v, n + 4) == Low(v3, n + 3) + [d];
    assert Low(v3, n + 3) == Low(v2, n + 2) + [c];
    assert Low(v2, n + 2) == Low(v1, n + 1) + [b];
    assert Low(v1, n + 1) == Low(high, n) + [a];
  }

  lemma StepBelow(v: bv32, bit: bool)
    requires Below(v, 0x100_0000)
    ensures Below(WordStep(v, bit), 0x100_0000)
  {
  }

  lemma WordStepIs(v: bv32, bit: bool)
    requires Below(v, 0x100_0000)
    ensures Step(ModeS(), Low(v, 24), bit) == Low(WordStep(v, bit), 24)
    ensures Below(WordStep(v, bit), 0x100_0000)
  {
    StepBelow(v, bit);
    GeneratorWord();
    hide Low, Push, Plus, Below, Overflows, ModeS, Half, IsOdd;
    var w, g: bv32 := Push(v, bit), 0x1FFF409;
    LowPush(v, bit, 24);
    TopBit(w);
    LowXor(w, g, 25);
    LowDrop(w, 24);
    LowDrop(Plus(w, g), 24);
    var r := Low(v, 24);
    assert (r + [bit])[0] == r[0];
    assert Xor(r + [bit], Zeros(25)) == r + [bit];
  }

  lemma FourSteps(g: Generator, r: Reg, a: bool, b: bool, c: bool, d: bool)
    ensures Steps(g, r, [a, b, c, d]) == Step(g, Step(g, Step(g, Step(g, r, a), b), c), d)
  {
    hide Step, Steps;
    NoSteps(g, r);
    StepsLast(g, r, [], a);
    StepsLast(g, r, [a], b);
    StepsLast(g, r, [a, b], c);
    StepsLast(g, r, [a, b, c], d);
    assert [] + [a] == [a] && [a] + [b] == [a, b] && [a, b] + [c] == [a, b, c] && [a, b, c] + [d] == [a, b, c, d];
  }

  lemma NoSteps(g: Generator, r: Reg)
    ensures Steps(g, r, []) == r
  {
  }

  lemma EightSteps(g: Generator, r: Reg, a: bool, b: bool, c: bool, d: bool, e: bool, f: bool, h: bool, i: bool)
    ensures Steps(g, r, [a, b, c, d, e, f, h, i])
         == Step(g, Step(g, Step(g, Step(g, Step(g, Step(g, Step(g, Step(g, r, a), b), c), d), e), f), h), i)
  {
    hide Step, Steps;
    FourSteps(g, r, a, b, c, d);
    FourSteps(g, Steps(g, r, [a, b, c, d]), e, f, h, i);
    StepsAppend(g, r, [a, b, c, d], [e, f, h, i]);
    assert [a, b, c, d] + [e, f, h, i] == [a, b, c, d, e, f, h, i];
  }

  /** A whole byte on machine words. */
  lemma WordByteIs(v: bv32, a: bool, b: bool, c: bool, d: bool, e: bool, f: bool, g: bool, h: bool)
    requires Below(v, 0x100_0000)
    ensures Steps(ModeS(), Low(v, 24), [a, b, c, d, e, f, g, h]) == Low(WordByte(v, a, b, c, d, e, f, g, h), 24)
    ensures Below(WordByte(v, a, b, c, d, e, f, g, h), 0x100_0000)
  {
    hide Low, Below, ModeS, Step, Steps, WordStep;
    EightSteps(ModeS(), Low(v, 24), a, b, c, d, e, f, g, h);
    var v1 := WordStep(v, a);
    var v2 := WordStep(v1, b);
    var v3 := WordStep(v2, c);
    var v4 := WordStep(v3, d);
    var v5 := WordStep(v4, e);
    var v6 := WordStep(v5, f);
    var v7 := WordStep(v6, g);
    WordStepIs(v, a); WordStepIs(v1, b); WordStepIs(v2, c); WordStepIs(v3, d);
    WordStepIs(v4, e); WordStepIs(v5, f); WordStepIs(v6, g); WordStepIs(v7, h);
  }

  lemma ByteNext(msg: seq<byte>, k: nat, v: bv32, a: bool, b: bool, c: bool, d: bool, e: bool, f: bool, g: bool, h: bool)
    requires k < |msg| && Rem(ModeS(), Message(msg[..k])) == Low(v, 24) && Below(v, 0x100_0000)
    requires Bits(msg[k], 8) == [a, b, c, d, e, f, g, h]
    ensures var w := WordByte(v, a, b, c, d, e, f, g, h);
            Rem(ModeS(), Message(msg[..k + 1])) == Low(w, 24) && Below(w, 0x100_0000)
  {
    MessagePrefix(msg, k);
    hide Low, Below, ModeS, WordByte, Message, Bits;
    WordByteIs(v, a, b, c, d, e, f, g, h);
    StepsAppend(ModeS(), Zeros(24), Message(msg[..k]), Bits(msg[k], 8));
  }

  lemma NothingYet()
    ensures Rem(ModeS(), Message([])) == Low(0, 24) && Below(0, 0x100_0000)
  {
    LowZero(24);
    hide Low;
  }

  lemma {:induction false} LowZero(n: nat)
    ensures Low(0, n) == Zeros(n)
  {
    if n > 0 {
      LowZero(n - 1);
    }
  }

  lemma Bytes0And1()
    ensures WordByte(0x0, true, false, false, false, true, true, false, true) == 0x8D
    ensures WordByte(0x8D, false, true, false, false, true, false, false, false) == 0x8D48
  {
  }

  lemma Digits0And1()
    ensures Bits(0x8D, 8) == [true, false, false, false, true, true, false, true] && Bits(0x48, 8) == [false, true, false, false, true, false, false, false]
  {
    hide Bits;
    ByteBits(0x8D);
    ByteBits(0x48);
  }

  lemma Bytes2And3()
    ensures WordByte(0x8D48, false, true, false, false, false, false, false, false) == 0x8D4840
    ensures WordByte(0x8D4840, true, true, false, true, false, true, true, false) == 0xB0FA45
  {
  }

  lemma Digits2And3()
    ensures Bits(0x40, 8) == [false, true, false, false, false, false, false, false] && Bits(0xD6, 8) == [true, true, false, true, false, true, true, false]
  {
    hide Bits;
    ByteBits(0x40);
    ByteBits(0xD6);
  }

  lemma Bytes4And5()
    ensures WordByte(0xB0FA45, false, false, true, false, false, false, false, false) == 0xFC6288
    ensures WordByte(0xFC6288, false, false, true, false, true, true, false, false) == 0x6764BE
  {
  }

  lemma Digits4And5()
    ensures Bits(0x20, 8) == [false, false, true, false, false, false, false, false] && Bits(0x2C, 8) == [false, false, true, false, true, true, false, false]
  {
    hide Bits;
    ByteBits(0x20);
    ByteBits(0x2C);
  }

  lemma Bytes6And7()
    ensures WordByte(0x6764BE, true, true, false, false, false, false, true, true) == 0x992C37
    ensures WordByte(0x992C37, false, true, true, true, false, false, false, true) == 0xD4550C
  {
  }

  lemma Digits6And7()
    ensures Bits(0xC3, 8) == [true, true, false, false, false, false, true, true] && Bits(0x71, 8) == [false, true, true, true, false, false, false, true]
  {
    hide Bits;
    ByteBits(0xC3);
    ByteBits(0x71);
  }

  lemma Bytes8And9()
    ensures WordByte(0xD4550C, true, true, false, false, false, false, true, true) == 0x51518D
    ensures WordByte(0x51518D, false, false, true, false, true, true, false, false) == 0xAD1A9D
  {
  }

  lemma Digits8And9()
    ensures Bits(0xC3, 8) == [true, true, false, false, false, false, true, true] && Bits(0x2C, 8) == [false, false, true, false, true, true, false, false]
  {
    hide Bits;
    ByteBits(0xC3);
    ByteBits(0x2C);
  }

  lemma Bytes10And11()
    ensures WordByte(0xAD1A9D, true, true, true, false, false, false, false, false) == 0xE3E6C3
    ensures WordByte(0xE3E6C3, false, true, false, true, false, true, true, true) == 0x1C6F55
  {
  }

  lemma Digits10And11()
    ensures Bits(0xE0, 8) == [true, true, true, false, false, false, false, false] && Bits(0x57, 8) == [false, true, false, true, false, true, true, true]
  {
    hide Bits;
    ByteBits(0xE0);
    ByteBits(0x57);
  }

  lemma Bytes12And13()
    ensures WordByte(0x1C6F55, false, true, true, false, false, false, false, false) == 0x6FFDE2
    ensures WordByte(0x6FFDE2, true, false, false, true, true, false, false, false) == 0x0
  {
  }

  lemma Digits12And13()
    ensures Bits(0x60, 8) == [false, true, true, false, false, false, false, false] && Bits(0x98, 8) == [true, false, false, true, true, false, false, false]
  {
    hide Bits;
    ByteBits(0x60);
    ByteBits(0x98);
  }

  // an extended squitter as it is received
  const RECEIVED: seq<byte> := [0x8D, 0x48, 0x40, 0xD6, 0x20, 0x2C, 0xC3, 0x71, 0xC3, 0x2C, 0xE0, 0x57, 0x60, 0x98]

  lemma FirstBytes(msg: seq<byte>)
    requires msg == RECEIVED && Rem(ModeS(), Message(msg[..0])) == Low(0x0, 24) && Below(0x0, 0x100_0000)
    ensures Rem(ModeS(), Message(msg[..4])) == Low(0xB0FA45, 24) && Below(0xB0FA45, 0x100_0000)
  {
    hide Low, ModeS, WordByte, Rem, Message, Below, Bits;
    Bytes0And1(); Digits0And1();
    ByteNext(msg, 0, 0x0, true, false, false, false, true, true, false, true);
    ByteNext(msg, 1, 0x8D, false, true, false, false, true, false, false, false);
    Bytes2And3(); Digits2And3();
    ByteNext(msg, 2, 0x8D48, false, true, false, false, false, false, false, false);
    ByteNext(msg, 3, 0x8D4840, true, true, false, true, false, true, true, false);
  }

  lemma NextBytes(msg: seq<byte>)
    requires msg == RECEIVED && Rem(ModeS(), Message(msg[..4])) == Low(0xB0FA45, 24) && Below(0xB0FA45, 0x100_0000)
    ensures Rem(ModeS(), Message(msg[..8])) == Low(0xD4550C, 24) && Below(0xD4550C, 0x100_0000)
  {
    hide Low, ModeS, WordByte, Rem, Message, Below, Bits;
    Bytes4And5(); Digits4And5();
    ByteNext(msg, 4, 0xB0FA45, false, false, true, false, false, false, false, false);
    ByteNext(msg, 5, 0xFC6288, false, false, true, false, true, true, false, false);
    Bytes6And7(); Digits6And7();
    ByteNext(msg, 6, 0x6764BE, true, true, false, false, false, false, true, true);
    ByteNext(msg, 7, 0x992C37, false, true, true, true, false, false, false, true);
  }

  lemma LaterBytes(msg: seq<byte>)
    requires msg == RECEIVED && Rem(ModeS(), Message(msg[..8])) == Low(0xD4550C, 24) && Below(0xD4550C, 0x100_0000)
    ensures Rem(ModeS(), Message(msg[..12])) == Low(0x1C6F55, 24) && Below(0x1C6F55, 0x100_0000)
  {
    hide Low, ModeS, WordByte, Rem, Message, Below, Bits;
    Bytes8And9(); Digits8And9();
    ByteNext(msg, 8, 0xD4550C, true, true, false, false, false, false, true, true);
    ByteNext(msg, 9, 0x51518D, false, false, true, false, true, true, false, false);
    Bytes10And11(); Digits10And11();
    ByteNext(msg, 10, 0xAD1A9D, true, true, true, false, false, false, false, false);
    ByteNext(msg, 11, 0xE3E6C3, false, true, false, true, false, true, true, true);
  }

  lemma LastBytes(msg: seq<byte>)
    requires msg == RECEIVED && Rem(ModeS(), Message(msg[..12])) == Low(0x1C6F55, 24) && Below(0x1C6F55, 0x100_0000)
    ensures Rem(ModeS(), Message(msg[..14])) == Low(0x0, 24) && Below(0x0, 0x100_0000)
  {
    hide Low, ModeS, WordByte, Rem, Message, Below, Bits;
    Bytes12And13(); Digits12And13();
    ByteNext(msg, 12, 0x1C6F55, false, true, true, false, false, false, false, false);
    ByteNext(msg, 13, 0x6FFDE2, true, false, false, true, true, false, false, false);
  }

  /** The decoder accepts it. */
  lemma ReceivedAccepted()
    ensures Accepts(ModeS(), RECEIVED)
  {
    hide Low, ModeS, WordByte, Message, Below;
    var msg := RECEIVED;
    NothingYet();
    assert msg[..0] == [] && msg[..14] == msg && msg[0] / 8 == 17;
    hide Rem;
    FirstBytes(msg);
    NextBytes(msg);
    LaterBytes(msg);
    LastBytes(msg);
    LowZero(24);
    AcceptsRemainderZero(ModeS(), msg);
  }
}
