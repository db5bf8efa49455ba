/** The bit level of AIS: six-bit armour, bit fields and six-bit text. Lines are ASCII, so that a
    character is a byte. */
module AisBits {
  import opened Arithmetic
  import opened BitStrings

  // ---------- armour ----------

  /** The value an armoured character stands for; characters below '0' come out negative. */
  function SixBitValue(ch: char): (v: int)
    ensures v >= -48
  {
    var v := ch as int - 48;
    if v > 40 then v - 8 else v
  }

  function SixBits(ch: char): (s: seq<bool>)
    ensures |s| == 6
  {
    Bits(SixBitValue(ch) + 64, 6)
  }

  function Unarmour(payload: string): (s: seq<bool>)
    ensures |s| == 6 * |payload|
  {
    if payload == "" then [] else Unarmour(payload[..|payload| - 1]) + SixBits(payload[|payload| - 1])
  }

  /** The bits of a payload without its fill bits; a negative fill count appends zeros. */
  function DecodedBits(payload: string, fillBits: int): seq<bool> {
    var total := 6 * |payload| - fillBits;
    if total <= 0 then []
    else if fillBits < 0 then Unarmour(payload) + Zeros(-fillBits)
    else Unarmour(payload)[..total]
  }

  /** Bit b of v in two's complement, as (v >> b) & 1 computes it. */
  function BitOf(v: int, b: nat): bool {
    v / Pow2(b) % 2 == 1
  }

  lemma {:induction false} BitsAt(v: nat, n: nat, b: nat)
    requires b < n
    ensures Bits(v, n)[n - 1 - b] == BitOf(v, b)
  {
    if b > 0 {
      BitsAt(v / 2, n - 1, b - 1);
      assert v / Pow2(b) == v / 2 / Pow2(b - 1) by {
        HalfThen(v, Pow2(b - 1));
      }
    }
  }

  lemma HalfThen(v: nat, p: nat)
    requires p > 0
    ensures v / (2 * p) == v / 2 / p
  {
    var q, r := v / 2 / p, v / 2 % p;
    assert v == 2 * (p * q + r) + v % 2;
    assert v == (2 * p) * q + (2 * r + v % 2);
    DivisionUnique(v, 2 * p, q, 2 * r + v % 2);
  }

  lemma SixtyFourBit(v: int, b: nat)
    requires b < 6
    ensures BitOf(v + 64, b) == BitOf(v, b)
  {
    assert Pow2(0) == 1 && Pow2(1) == 2 && Pow2(2) == 4 && Pow2(3) == 8 && Pow2(4) == 16 && Pow2(5) == 32;
    hide Pow2;
    match b {
      case 0 => assert (v + 64) / 1 % 2 == v / 1 % 2;
      case 1 => assert (v + 64) / 2 == v / 2 + 32;
      case 2 => assert (v + 64) / 4 == v / 4 + 16;
      case 3 => assert (v + 64) / 8 == v / 8 + 8;
      case 4 => assert (v + 64) / 16 == v / 16 + 4;
      case _ => assert (v + 64) / 32 == v / 32 + 2;
    }
  }

  lemma SixBitsAt(ch: char, b: nat)
    requires b < 6
    ensures SixBits(ch)[5 - b] == BitOf(SixBitValue(ch), b)
  {
    hide SixBitValue, Bits, BitOf, Pow2;
    BitsAt(SixBitValue(ch) + 64, 6, b);
    SixtyFourBit(SixBitValue(ch), b);
  }

  /** The characters that are sent, '0' to 'W' and '`' to 'w', stand for 0 to 39 and 40 to 63; any other is moved
      down by 48, and by 56 from 'Y' on. */
  lemma CharValue(ch: char)
    ensures '0' <= ch <= 'W' ==> SixBitValue(ch) == ch as int - '0' as int
    ensures '`' <= ch <= 'w' ==> SixBitValue(ch) == 40 + (ch as int - '`' as int)
    ensures SixBitValue(ch) == ch as int - if ch >= 'Y' then 56 else 48
  {
  }

  lemma {:induction false} UnarmourAt(payload: string, i: nat, j: nat)
    requires i < |payload| && j < 6
    ensures Unarmour(payload)[6 * i + j] == SixBits(payload[i])[j]
  {
    hide SixBits;
    if i < |payload| - 1 {
      UnarmourAt(payload[..|payload| - 1], i, j);
    }
  }

  lemma UnarmourBit(payload: string, i: nat, b: nat)
    requires i < |payload| && b < 6
    ensures i * 6 + (5 - b) < |Unarmour(payload)|
    ensures Unarmour(payload)[i * 6 + (5 - b)] == BitOf(SixBitValue(payload[i]), b)
  {
    hide Unarmour, SixBits, BitOf, SixBitValue;
    SixBitsAt(payload[i], b);
    UnarmourAt(payload, i, 5 - b);
  }

  method DecodeSixBit(payload: string, fillBits: int) returns (bits: seq<bool>)
    ensures bits == DecodedBits(payload, fillBits)
  {
    var totalBits := |payload| * 6 - fillBits;
    if totalBits <= 0 {
      return [];
    }
    hide Unarmour, SixBitValue, BitOf;
    ghost var all := Unarmour(payload);
    var a := new bool[totalBits](_ => false);
    for i := 0 to |payload|
      invariant forall k | 0 <= k < totalBits :: a[k] == (k < i * 6 && all[k])
    {
      var val := FromArmour(payload[i]);
      var b := 5;
      while b >= 0
        invariant -1 <= b <= 5
        invariant forall k | 0 <= k < totalBits :: a[k] == (k < i * 6 + (5 - b) && all[k])
      {
        var bitIdx := i * 6 + (5 - b);
        UnarmourBit(payload, i, b);
        if bitIdx < totalBits {
          a[bitIdx] := BitOf(val, b);
        }
        b := b - 1;
      }
    }
    bits := a[..];
  }

  method FromArmour(ch: char) returns (val: int)
    ensures val == SixBitValue(ch)
  {
    val := ch as int - 48;
    if val > 40 {
      val := val - 8;
    }
  }

  function ArmourChar(six: seq<bool>): (c: char)
    requires |six| == 6
    ensures '0' <= c <= 'W' || '`' <= c <= 'w'
  {
    ValueBound(six);
    var v := Value(six);
    assert v < 64 by { assert Pow2(6) == 64; }
    if v < 40 then (v + 48) as char else (v + 56) as char
  }

  /** Six bits to a character, as ITU-R M.1371 and IEC 61162-1 armour them. */
  function Armour(bits: seq<bool>): (s: string)
    requires |bits| % 6 == 0
    ensures |s| == |bits| / 6
    ensures forall i | 0 <= i < |s| :: '0' <= s[i] <= 'W' || '`' <= s[i] <= 'w'
  {
    if bits == [] then "" else Armour(bits[..|bits| - 6]) + [ArmourChar(bits[|bits| - 6..])]
  }

  function FillBits(n: nat): (f: nat)
    ensures f < 6 && (n + f) % 6 == 0
  {
    (6 - n % 6) % 6
  }

  lemma ArmourCharRoundTrip(six: seq<bool>)
    requires |six| == 6
    ensures SixBits(ArmourChar(six)) == six
  {
    var v := Value(six);
    ValueBound(six);
    assert v < 64 by { assert Pow2(6) == 64; }
    assert SixBitValue(ArmourChar(six)) == v by { hide Value; }
    BitsOfValue(six);
    SixtyFour(v);
  }

  lemma SixtyFour(v: nat)
    requires v < 64
    ensures Bits(v + 64, 6) == Bits(v, 6)
  {
    hide Pow2;
    forall j | 0 <= j < 6
      ensures Bits(v + 64, 6)[j] == Bits(v, 6)[j]
    {
      hide Bits, BitOf;
      var b: nat := 5 - j;
      BitsAt(v, 6, b);
      BitsAt(v + 64, 6, b);
      SixtyFourBit(v, b);
    }
  }

  lemma {:induction false} UnarmourArmour(bits: seq<bool>)
    requires |bits| % 6 == 0
    ensures Unarmour(Armour(bits)) == bits
  {
    hide SixBits, ArmourChar;
    if bits != [] {
      var front, six := bits[..|bits| - 6], bits[|bits| - 6..];
      UnarmourArmour(front);
      ArmourCharRoundTrip(six);
      var s := Armour(front) + [ArmourChar(six)];
      assert s[..|s| - 1] == Armour(front);
      assert bits == front + six;
    }
  }

  /** Only the bits before the fill bits are decoded. */
  lemma WithoutFill(payload: string, bits: seq<bool>, fill: nat)
    requires Unarmour(payload) == bits + Zeros(fill)
    ensures DecodedBits(payload, fill) == bits
  {
    hide Unarmour;
    assert |Unarmour(payload)| == |bits| + fill;
  }

  /** Filled up to a whole number of characters. */
  function Padded(bits: seq<bool>): (padded: seq<bool>)
    ensures |padded| % 6 == 0
  {
    bits + Zeros(FillBits(|bits|))
  }

  /** Armouring any bits and decoding them again. */
  lemma ArmourRoundTrip(bits: seq<bool>)
    ensures DecodedBits(Armour(Padded(bits)), FillBits(|bits|)) == bits
  {
    hide DecodedBits, Unarmour, Armour, Padded, Zeros, FillBits;
    UnarmourArmour(Padded(bits));
    PaddedIs(bits);
    WithoutFill(Armour(Padded(bits)), bits, FillBits(|bits|));
  }

  lemma PaddedIs(bits: seq<bool>)
    ensures Padded(bits) == bits + Zeros(FillBits(|bits|))
  {
  }

  // ---------- fields ----------

  function Min(a: nat, b: nat): nat {
    if a < b then a else b
  }

  /** The unsigned number in a bit field; the part of a field beyond the end is skipped. */
  function Field(bits: seq<bool>, start: nat, length: nat): nat {
    Value(bits[Min(start, |bits|)..Min(start + length, |bits|)])
  }

  /** The two's complement number in a bit field. */
  function SignedField(bits: seq<bool>, start: nat, length: nat): int
    requires start < |bits|
  {
    Field(bits, start, length) - if length > 0 && bits[start] then Pow2(length) else 0
  }

  method BitsToUint(bits: seq<bool>, start: nat, length: nat) returns (val: nat)
    ensures val == Field(bits, start, length)
  {
    val := 0;
    for i := 0 to length
      invariant val == Field(bits, start, i)
    {
      if start + i < |bits| {
        assert bits[start..start + i + 1][..i] == bits[start..start + i];
        val := 2 * val + if bits[start + i] then 1 else 0;
      }
    }
  }

  lemma {:induction false} Pow2Monotone(m: nat, n: nat)
    requires m <= n
    ensures Pow2(m) <= Pow2(n)
  {
    if m < n {
      Pow2Monotone(m, n - 1);
    }
  }

  /** A 64-bit word read as a signed number. */
  function ToInt64(word: nat): int {
    if word >= Pow2(63) then word - Pow2(64) else word
  }

  lemma FieldBound(bits: seq<bool>, start: nat, length: nat)
    ensures Field(bits, start, length) < Pow2(length)
  {
    var field := bits[Min(start, |bits|)..Min(start + length, |bits|)];
    ValueBound(field);
    Pow2Monotone(|field|, length);
  }

  method BitsToInt(bits: seq<bool>, start: nat, length: nat) returns (val: int)
    requires start < |bits| && length < 64
    ensures val == SignedField(bits, start, length)
  {
    var word := BitsToUint(bits, start, length);
    FieldBound(bits, start, length);
    hide Field;
    assert Pow2(64) == 2 * Pow2(63);
    Pow2Monotone(length, 63);
    if length > 0 && bits[start] {
      // all the bits above the field are set
      word := word + (Pow2(64) - Pow2(length));
    }
    hide Pow2;
    return ToInt64(word);
  }

  /** A number in two's complement, and back. */
  function SignedBits(v: int, n: nat): (s: seq<bool>)
    requires n > 0 && -(Pow2(n - 1) as int) <= v
    ensures |s| == n
  {
    Bits(if v < 0 then v + Pow2(n) else v, n)
  }

  lemma SignedRoundTrip(v: int, n: nat)
    requires n > 0 && -(Pow2(n - 1) as int) <= v < Pow2(n - 1)
    ensures SignedField(SignedBits(v, n), 0, n) == v
  {
    var half := Pow2(n - 1);
    assert Pow2(n) == 2 * half;
    var w: nat := if v < 0 then v + 2 * half else v;
    var s := SignedBits(v, n);
    ValueOfBits(w, n);
    assert s[0..n] == s;
    BitsAt(w, n, n - 1);
    assert w / half == if v < 0 then 1 else 0 by {
      hide Pow2, Bits;
      if v < 0 {
        DivisionUnique(w, half, 1, w - half);
      } else {
        DivisionUnique(w, half, 0, w);
      }
    }
  }

  // ---------- text ----------

  function SixBitChar(v: nat): char
    requires v < 64
  {
    if v < 32 then (v + 64) as char else v as char
  }

  function Letter(bits: seq<bool>, start: nat): char {
    FieldBound(bits, start, 6);
    assert Pow2(6) == 64;
    SixBitChar(Field(bits, start, 6))
  }

  function Letters(bits: seq<bool>, start: nat, count: nat): (s: string)
    ensures |s| == count
  {
    if count == 0 then "" else Letters(bits, start, count - 1) + [Letter(bits, start + 6 * (count - 1))]
  }

  method BitsToString(bits: seq<bool>, start: nat, numBits: nat) returns (s: string)
    ensures s == Letters(bits, start, numBits / 6)
  {
    var numChars := numBits / 6;
    var chars := new char[numChars](_ => '\0');
    assert chars[..0] == "";
    hide Field;
    for i := 0 to numChars
      invariant chars[..i] == Letters(bits, start, i)
    {
      var val := BitsToUint(bits, start + i * 6, 6);
      FieldBound(bits, start + i * 6, 6);
      assert Pow2(6) == 64;
      if val < 32 {
        chars[i] := (val + 64) as char;
      } else {
        chars[i] := val as char;
      }
      assert chars[..i + 1] == chars[..i] + [chars[i]];
    }
    assert chars[..] == chars[..numChars];
    return chars[..];
  }

  /** Without the padding at the end. */
  function TrimPadding(s: string): string {
    if s != "" && (s[|s| - 1] == '@' || s[|s| - 1] == ' ') then TrimPadding(s[..|s| - 1]) else s
  }

  predicate IsPadding(c: char) {
    c == '@' || c == ' '
  }

  /** It is the front part of the text that ends in something else, and what follows is all padding. */
  lemma {:induction false} PaddingTrimmed(s: string)
    ensures var r := TrimPadding(s);
            && |r| <= |s| && r == s[..|r|]
            && (r != "" ==> !IsPadding(r[|r| - 1]))
            && forall i | |r| <= i < |s| :: IsPadding(s[i])
  {
    if s != "" && IsPadding(s[|s| - 1]) {
      PaddingTrimmed(s[..|s| - 1]);
    }
  }

  /** The six-bit alphabet: '@' to '_' and ' ' to '?'. */
  predicate InAlphabet(s: string) {
    forall i | 0 <= i < |s| :: ' ' <= s[i] <= '_'
  }

  function LetterBits(ch: char): (s: seq<bool>)
    requires ' ' <= ch <= '_'
    ensures |s| == 6
  {
    Bits(if ch as int >= 64 then ch as int - 64 else ch as int, 6)
  }

  function TextBits(s: string): (b: seq<bool>)
    requires InAlphabet(s)
    ensures |b| == 6 * |s|
  {
    if s == "" then [] else TextBits(s[..|s| - 1]) + LetterBits(s[|s| - 1])
  }

  lemma LetterRoundTrip(ch: char, bits: seq<bool>, start: nat)
    requires ' ' <= ch <= '_' && start + 6 <= |bits| && bits[start..start + 6] == LetterBits(ch)
    ensures Letter(bits, start) == ch
  {
    assert Pow2(6) == 64;
    ValueOfBits(if ch as int >= 64 then ch as int - 64 else ch as int, 6);
    hide Bits, Value;
  }

  lemma TextEnds(s: string)
    requires InAlphabet(s) && s != ""
    ensures var k := |s| - 1;
            && InAlphabet(s[..k]) && ' ' <= s[k] <= '_'
            && TextBits(s)[..6 * k] == TextBits(s[..k]) && TextBits(s)[6 * k..] == LetterBits(s[k])
  {
    hide LetterBits;
  }

  lemma Within(bits: seq<bool>, start: nat, m: nat, n: nat)
    requires m <= n && start + n <= |bits|
    ensures bits[start..start + n][..m] == bits[start..start + m]
    ensures bits[start..start + n][m..] == bits[start + m..start + n]
  {
  }

  lemma LettersNext(bits: seq<bool>, start: nat, count: nat)
    ensures Letters(bits, start, count + 1) == Letters(bits, start, count) + [Letter(bits, start + 6 * count)]
  {
    hide Letter;
  }

  /** Text packed anywhere in a message is read back. */
  lemma {:induction false} TextRoundTrip(s: string, bits: seq<bool>, start: nat)
    requires InAlphabet(s) && start + 6 * |s| <= |bits| && bits[start..start + 6 * |s|] == TextBits(s)
    ensures Letters(bits, start, |s|) == s
  {
    hide Letter, LetterBits, TextBits, InAlphabet;
    if s != "" {
      var k := |s| - 1;
      TextEnds(s);
      Within(bits, start, 6 * k, 6 * |s|);
      TextRoundTrip(s[..k], bits, start);
      LetterRoundTrip(s[k], bits, start + 6 * k);
      LettersNext(bits, start, k);
    }
  }
}
