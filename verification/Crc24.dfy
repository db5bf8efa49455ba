/** Mode-S CRC-24: the table-driven loop of the decoder, the polynomial division it stands for,
    and the errors it detects. Machine words are bit strings. */
module Crc24 {
  import opened BitStrings
  import opened Sequences
  import opened Gf2

  /** The Mode-S generator: the constant 0xFFF409, one hexadecimal digit a row, behind the x^24
      term that the register never holds. */
  function ModeS(): Generator {
    [true,
     true, true, true, true,
     true, true, true, true,
     true, true, true, true,
     false, true, false, false,
     false, false, false, false,
     true, false, false, true]
  }

  // ---------- the code ----------

  function ShiftLeft(word: seq<bool>, k: nat): (s: seq<bool>)
    requires k <= |word|
    ensures |s| == |word|
  {
    word[k..] + Zeros(k)
  }

  /** A byte in the top eight bits of a register. */
  function OnTop(b: seq<bool>): Reg
    requires |b| == 8
  {
    b + Zeros(16)
  }

  function TableEntry(g: Generator, i: byte): Reg {
    Steps(g, OnTop(Bits(i, 8)), Zeros(8))
  }

  ghost predicate IsTable(g: Generator, table: seq<seq<bool>>) {
    |table| == 256 && forall i | 0 <= i < 256 :: table[i] == TableEntry(g, i)
  }

  /** The source register is 32 bits wide; what collects above bit 23 never reaches the low bits. */
  lemma UnmaskedStep(g: Generator, crc: seq<bool>)
    requires |crc| == 32
    ensures (if crc[8] then Xor(ShiftLeft(crc, 1), (Zeros(8) + g[1..])) else ShiftLeft(crc, 1))[8..]
         == Step(g, crc[8..], false)
  {
    var s := if crc[8] then Xor(ShiftLeft(crc, 1), (Zeros(8) + g[1..])) else ShiftLeft(crc, 1);
    forall i | 0 <= i < 24 ensures s[8..][i] == Step(g, crc[8..], false)[i] {
      assert (Zeros(8) + g[1..])[8 + i] == g[i + 1];
      assert (crc[8..] + [false])[i + 1] == ShiftLeft(crc, 1)[8 + i];
    }
  }

  lemma StepsNone(g: Generator, r: Reg)
    ensures Steps(g, r, []) == r
  {
  }

  /** One table entry: the body of the outer loop. */
  method FillEntry(g: Generator, i: byte) returns (entry: Reg)
    ensures entry == TableEntry(g, i)
  {
    hide Bits, Step, Steps;
    var crc := ShiftLeft(Bits(i, 32), 16);
    BitsLow(i, 32, 8);
    assert crc[8..] == OnTop(Bits(i, 8));
    assert Zeros(0) == [];
    StepsNone(g, OnTop(Bits(i, 8)));
    for j := 0 to 8
      invariant |crc| == 32
      invariant crc[8..] == Steps(g, OnTop(Bits(i, 8)), Zeros(j))
    {
      UnmaskedStep(g, crc);
      assert Zeros(j + 1) == Zeros(j) + [false];
      StepsLast(g, OnTop(Bits(i, 8)), Zeros(j), false);
      if crc[8] {
        crc := Xor(ShiftLeft(crc, 1), (Zeros(8) + g[1..]));
      } else {
        crc := ShiftLeft(crc, 1);
      }
    }
    entry := crc[8..];
  }

  /** Fills the lookup table once at start-up. */
  method InitTable(g: Generator) returns (table: array<seq<bool>>)
    ensures fresh(table) && IsTable(g, table[..])
  {
    table := new seq<bool>[256];
    for i := 0 to 256
      invariant forall k | 0 <= k < i :: table[k] == TableEntry(g, k)
    {
      table[i] := FillEntry(g, i);
    }
  }

  lemma IndexInRange(x: seq<bool>)
    requires |x| == 8
    ensures Value(x) < 256
  {
    ValueBound(x);
    assert Pow2(8) == 256;
  }

  function Index(crc: Reg, b: byte): (i: byte) {
    var x := Xor(crc[..8], Bits(b, 8));
    IndexInRange(x);
    Value(x)
  }

  function Update(g: Generator, crc: Reg, b: byte): Reg {
    Xor(ShiftLeft(crc, 8), TableEntry(g, Index(crc, b)))
  }

  /** What the loop computes, byte by byte. */
  function Crc(g: Generator, data: seq<byte>): Reg {
    if data == [] then Zeros(24) else Update(g, Crc(g, data[..|data| - 1]), data[|data| - 1])
  }

  method ComputeCRC24(g: Generator, table: seq<seq<bool>>, data: seq<byte>) returns (crc: Reg)
    requires IsTable(g, table)
    ensures crc == Crc(g, data)
  {
    crc := Zeros(24);
    for i := 0 to |data|
      invariant crc == Crc(g, data[..i])
    {
      assert data[..i + 1][..i] == data[..i];
      crc := Xor(ShiftLeft(crc, 8), table[Index(crc, data[i])]);
    }
    assert data[..|data|] == data;
  }

  /** The parity field: the last three bytes of a message. */
  function Parity(msg: seq<byte>): Reg
    requires |msg| >= 3
  {
    var n := |msg| - 3;
    Bits(msg[n], 8) + Bits(msg[n + 1], 8) + Bits(msg[n + 2], 8)
  }

  predicate Accepts(g: Generator, msg: seq<byte>) {
    && |msg| >= 7
    && msg[0] / 8 in {11, 17, 18}
    && Crc(g, msg[..|msg| - 3]) == Parity(msg)
  }

  method ValidateCRC(g: Generator, table: seq<seq<bool>>, msg: seq<byte>) returns (valid: bool, remainder: Reg)
    requires IsTable(g, table)
    ensures valid == Accepts(g, msg)
    ensures remainder == if |msg| < 7 then Zeros(24) else Xor(Crc(g, msg[..|msg| - 3]), Parity(msg))
  {
    if |msg| < 7 {
      return false, Zeros(24);
    }
    var computed := ComputeCRC24(g, table, msg[..|msg| - 3]);
    var df := msg[0] / 8;
    remainder := Xor(computed, Parity(msg));
    XorZero(computed, Parity(msg));
    if df == 11 || df == 17 || df == 18 {
      valid := remainder == Zeros(24);
    } else {
      valid := false;
    }
  }

  lemma XorZero(a: seq<bool>, b: seq<bool>)
    requires |a| == |b|
    ensures Xor(a, b) == Zeros(|a|) <==> a == b
  {
    if Xor(a, b) == Zeros(|a|) {
      forall i | 0 <= i < |a| ensures a[i] == b[i] {
        assert !Xor(a, b)[i];
      }
    }
  }

  // ---------- what it means ----------

  function Message(data: seq<byte>): (s: seq<bool>)
    ensures |s| == 8 * |data|
  {
    if data == [] then [] else Message(data[..|data| - 1]) + Bits(data[|data| - 1], 8)
  }

  lemma {:induction false} ShiftOut(g: Generator, r: Reg, k: nat)
    requires k <= 24 && forall i | 0 <= i < k :: !r[i]
    ensures Steps(g, r, Zeros(k)) == ShiftLeft(r, k)
  {
    if k > 0 {
      ShiftOut(g, r, k - 1);
      assert Zeros(k)[..k - 1] == Zeros(k - 1);
      var s := ShiftLeft(r, k - 1);
      StepShift(g, s);
      assert s[1..] + [false] == ShiftLeft(r, k);
    }
  }

  /** The table step is eight division steps on the register with the byte added on top. */
  lemma UpdateIsDivision(g: Generator, r: Reg, b: byte)
    ensures Update(g, r, b) == Steps(g, Xor(r, OnTop(Bits(b, 8))), Zeros(8))
  {
    var x := Xor(r[..8], Bits(b, 8));
    IndexInRange(x);
    BitsOfValue(x);
    var low := Zeros(8) + r[8..];
    assert Xor(OnTop(x), low) == Xor(r, OnTop(Bits(b, 8)));
    assert Xor(Zeros(8), Zeros(8)) == Zeros(8);
    StepsLinear(g, OnTop(x), low, Zeros(8), Zeros(8));
    ShiftOut(g, low, 8);
    assert ShiftLeft(low, 8) == ShiftLeft(r, 8);
    assert Update(g, r, b) == Xor(TableEntry(g, Index(r, b)), ShiftLeft(r, 8));
  }

  /** Bringing down w after r is bringing down zeros after r, plus w itself. */
  lemma BringDown(g: Generator, r: Reg, w: seq<bool>)
    requires |w| <= 24
    ensures Steps(g, r, w) == Xor(Steps(g, r, Zeros(|w|)), Zeros(24 - |w|) + w)
  {
    ShortRem(g, w);
    assert Xor(r, Zeros(24)) == r && Xor(Zeros(|w|), w) == w;
    StepsLinear(g, r, Zeros(24), Zeros(|w|), w);
  }

  lemma ZerosAppend(m: nat, n: nat)
    ensures Zeros(m) + Zeros(n) == Zeros(m + n)
  {
  }

  lemma ShiftTwice(g: Generator, r: Reg, m: nat, n: nat)
    ensures Steps(g, Steps(g, r, Zeros(m)), Zeros(n)) == Steps(g, r, Zeros(m + n))
  {
    ZerosAppend(m, n);
    StepsAppend(g, r, Zeros(m), Zeros(n));
  }

  /** A byte brought down and shifted up by 16 places sits on top of the register. */
  lemma ByteOnTop(g: Generator, x: seq<bool>)
    requires |x| == 8
    ensures Steps(g, Zeros(16) + x, Zeros(24)) == Steps(g, OnTop(x), Zeros(8))
  {
    ShiftOut(g, Zeros(16) + x, 16);
    assert ShiftLeft(Zeros(16) + x, 16) == OnTop(x);
    ShiftTwice(g, Zeros(16) + x, 16, 8);
  }

  lemma ByteBroughtDown(g: Generator, r: Reg, x: seq<bool>)
    requires |x| == 8
    ensures Steps(g, Steps(g, r, x), Zeros(24)) == Xor(Steps(g, r, Zeros(32)), Steps(g, OnTop(x), Zeros(8)))
  {
    BringDown(g, r, x);
    assert Xor(Zeros(24), Zeros(24)) == Zeros(24);
    StepsLinear(g, Steps(g, r, Zeros(8)), Zeros(16) + x, Zeros(24), Zeros(24));
    ShiftTwice(g, r, 8, 24);
    ByteOnTop(g, x);
  }

  /** One byte more: dividing the longer message is one table step on the shorter one's remainder. */
  lemma UpdateAppends(g: Generator, r: Reg, b: byte)
    ensures Update(g, Steps(g, r, Zeros(24)), b) == Steps(g, Steps(g, r, Bits(b, 8)), Zeros(24))
  {
    var r24, x := Steps(g, r, Zeros(24)), Bits(b, 8);
    calc {
      Update(g, r24, b);
      { UpdateIsDivision(g, r24, b); }
      Steps(g, Xor(r24, OnTop(x)), Zeros(8));
      { assert Xor(Zeros(8), Zeros(8)) == Zeros(8); StepsLinear(g, r24, OnTop(x), Zeros(8), Zeros(8)); }
      Xor(Steps(g, r24, Zeros(8)), Steps(g, OnTop(x), Zeros(8)));
      { ShiftTwice(g, r, 24, 8); }
      Xor(Steps(g, r, Zeros(32)), Steps(g, OnTop(x), Zeros(8)));
      { ByteBroughtDown(g, r, x); }
      Steps(g, Steps(g, r, x), Zeros(24));
    }
  }

  /** The code computes the remainder of data * x^24 on division by the generator. */
  lemma {:induction false} CrcIsRemainder(g: Generator, data: seq<byte>)
    ensures Crc(g, data) == Rem(g, Message(data) + Zeros(24))
  {
    if data == [] {
      RemZeros(g, 24);
      assert Message(data) + Zeros(24) == Zeros(24);
    } else {
      var n := |data| - 1;
      var m := Message(data[..n]);
      CrcIsRemainder(g, data[..n]);
      StepsAppend(g, Zeros(24), m, Zeros(24));
      UpdateAppends(g, Rem(g, m), data[n]);
      StepsAppend(g, Zeros(24), m, Bits(data[n], 8));
      StepsAppend(g, Zeros(24), Message(data), Zeros(24));
    }
  }

  lemma MessagePrefix(data: seq<byte>, n: nat)
    requires n < |data|
    ensures Message(data[..n + 1]) == Message(data[..n]) + Bits(data[n], 8)
  {
    assert data[..n + 1][..n] == data[..n];
  }

  lemma ParityAppends(msg: seq<byte>)
    requires |msg| >= 3
    ensures Message(msg) == Message(msg[..|msg| - 3]) + Parity(msg)
  {
    var n := |msg| - 3;
    var m1, m2 := Message(msg[..n + 1]), Message(msg[..n + 2]);
    assert m1 == Message(msg[..n]) + Bits(msg[n], 8) by { MessagePrefix(msg, n); }
    assert m2 == m1 + Bits(msg[n + 1], 8) by { MessagePrefix(msg, n + 1); }
    assert Message(msg) == m2 + Bits(msg[n + 2], 8) by { MessagePrefix(msg, n + 2); assert msg[..n + 3] == msg; }
    Regroup(Message(msg[..n]), Bits(msg[n], 8), Bits(msg[n + 1], 8));
    Regroup(Message(msg[..n]), Bits(msg[n], 8) + Bits(msg[n + 1], 8), Bits(msg[n + 2], 8));
  }

  /** The remainder that validation computes is the remainder of the whole message, parity included. */
  lemma RemainderOfWhole(g: Generator, msg: seq<byte>)
    requires |msg| >= 3
    ensures Xor(Crc(g, msg[..|msg| - 3]), Parity(msg)) == Rem(g, Message(msg))
  {
    var m := Message(msg[..|msg| - 3]);
    CrcIsRemainder(g, msg[..|msg| - 3]);
    ParityAppends(msg);
    StepsAppend(g, Zeros(24), m, Parity(msg));
    StepsAppend(g, Zeros(24), m, Zeros(24));
    BringDown(g, Rem(g, m), Parity(msg));
    assert Zeros(0) + Parity(msg) == Parity(msg);
  }

  /** The CRC over all N bytes is zero exactly when the CRC of the first N - 3 is the last three. */
  lemma WholeMessageCheck(g: Generator, msg: seq<byte>)
    requires |msg| >= 3
    ensures Crc(g, msg) == Zeros(24) <==> Crc(g, msg[..|msg| - 3]) == Parity(msg)
  {
    RemainderOfWhole(g, msg);
    XorZero(Crc(g, msg[..|msg| - 3]), Parity(msg));
    CrcIsRemainder(g, msg);
    TrailingZeros(g, Message(msg), 24);
  }

  lemma AcceptsRemainderZero(g: Generator, msg: seq<byte>)
    requires |msg| >= 7
    ensures Accepts(g, msg) <==> msg[0] / 8 in {11, 17, 18} && Rem(g, Message(msg)) == Zeros(24)
  {
    RemainderOfWhole(g, msg);
    XorZero(Crc(g, msg[..|msg| - 3]), Parity(msg));
  }

  /** Validation accepts exactly the multiples of the generator, among the formats it can check. */
  lemma AcceptsMultiples(g: Generator, msg: seq<byte>)
    ensures Accepts(g, msg) <==>
            |msg| >= 7 && msg[0] / 8 in {11, 17, 18} && exists q :: |q| == 8 * |msg| - 24 && Message(msg) == Times(g, q)
  {
    if |msg| >= 7 {
      AcceptsRemainderZero(g, msg);
      Divisibility(g, Message(msg));
    }
  }

  function XorBytes(a: seq<byte>, b: seq<byte>): (s: seq<byte>)
    requires |a| == |b|
    ensures |s| == |a|
  {
    seq(|a|, i requires 0 <= i < |a| => XorByte(a[i], b[i]))
  }

  function XorByte(a: byte, b: byte): (c: byte)
    ensures Bits(c, 8) == Xor(Bits(a, 8), Bits(b, 8))
  {
    var x := Xor(Bits(a, 8), Bits(b, 8));
    IndexInRange(x);
    BitsOfValue(x);
    Value(x)
  }

  lemma {:induction false} MessageXor(a: seq<byte>, b: seq<byte>)
    requires |a| == |b|
    ensures Message(XorBytes(a, b)) == Xor(Message(a), Message(b))
  {
    if a != [] {
      var n := |a| - 1;
      MessageXor(a[..n], b[..n]);
      assert XorBytes(a, b)[..n] == XorBytes(a[..n], b[..n]);
    }
  }

  lemma XorPadded(a: seq<bool>, b: seq<bool>, n: nat)
    requires |a| == |b|
    ensures Xor(a, b) + Zeros(n) == Xor(a + Zeros(n), b + Zeros(n))
  {
  }

  lemma CrcLinear(g: Generator, a: seq<byte>, b: seq<byte>)
    requires |a| == |b|
    ensures Crc(g, XorBytes(a, b)) == Xor(Crc(g, a), Crc(g, b))
  {
    CrcIsRemainder(g, a);
    CrcIsRemainder(g, b);
    CrcIsRemainder(g, XorBytes(a, b));
    MessageXor(a, b);
    XorPadded(Message(a), Message(b), 24);
    RemLinear(g, Message(a) + Zeros(24), Message(b) + Zeros(24));
  }

  /** An accepted message with any non-zero error confined to 24 consecutive bits is rejected. */
  lemma BurstDetected(g: Generator, msg: seq<byte>, error: seq<byte>, start: nat)
    requires Accepts(g, msg)
    requires |error| == |msg| && IsBurst(Message(error), start)
    ensures !Accepts(g, XorBytes(msg, error))
  {
    AcceptsRemainderZero(g, msg);
    AcceptsRemainderZero(g, XorBytes(msg, error));
    MessageXor(msg, error);
    RemLinear(g, Message(msg), Message(error));
    BurstRem(g, Message(error), start);
    XorZero(Zeros(24), Rem(g, Message(error)));
  }
}
