/** NMEA 0183 sentences: the fields of an AIVDM or AIVDO line and its checksum. */
module Nmea {
  import opened BitStrings
  import opened Options
  import opened Sequences

  // ---------- the string library ----------

  predicate IsSpace(c: char) {
    c == ' ' || '\t' <= c <= '\r'
  }

  function TrimLeft(s: string): string {
    if s != "" && IsSpace(s[0]) then TrimLeft(s[1..]) else s
  }

  function TrimRight(s: string): string {
    if s != "" && IsSpace(s[|s| - 1]) then TrimRight(s[..|s| - 1]) else s
  }

  function TrimSpace(s: string): string {
    TrimRight(TrimLeft(s))
  }

  /** Blank, tab, line feed, vertical tab, form feed or carriage return. */
  predicate IsWhite(c: char) {
    c as int in {9, 10, 11, 12, 13, 32}
  }

  lemma {:induction false} LeftTrimmed(s: string) returns (i: nat)
    ensures i <= |s| && TrimLeft(s) == s[i..]
    ensures (forall k | 0 <= k < i :: IsWhite(s[k])) && (i < |s| ==> !IsWhite(s[i]))
  {
    i := 0;
    if s != "" && IsSpace(s[0]) {
      var n := LeftTrimmed(s[1..]);
      i := n + 1;
    }
  }

  lemma {:induction false} RightTrimmed(s: string) returns (j: nat)
    ensures j <= |s| && TrimRight(s) == s[..j]
    ensures (forall k | j <= k < |s| :: IsWhite(s[k])) && (j > 0 ==> !IsWhite(s[j - 1]))
  {
    j := |s|;
    if s != "" && IsSpace(s[|s| - 1]) {
      j := RightTrimmed(s[..|s| - 1]);
    }
  }

  /** What is kept of a line is everything from its first to its last character that is not white space. */
  lemma SpaceTrimmed(s: string) returns (i: nat, j: nat)
    ensures i <= j <= |s| && TrimSpace(s) == s[i..j]
    ensures forall k | 0 <= k < i || j <= k < |s| :: IsWhite(s[k])
    ensures i < j ==> !IsWhite(s[i]) && !IsWhite(s[j - 1])
  {
    i := LeftTrimmed(s);
    var n := RightTrimmed(s[i..]);
    j := i + n;
    hide TrimLeft, TrimRight, IsWhite;
    assert forall k | j <= k < |s| :: s[k] == s[i..][k - i];
  }

  function LastIndex(s: string, c: char): (i: int)
    ensures -1 <= i < |s|
    ensures i >= 0 ==> s[i] == c
    ensures forall k | i < k < |s| :: s[k] != c
  {
    if s == "" then -1 else if s[|s| - 1] == c then |s| - 1 else LastIndex(s[..|s| - 1], c)
  }

  function Split(s: string, sep: char): (parts: seq<string>)
    ensures |parts| > 0
  {
    if s == "" then [""]
    else
      var rest := Split(s[1..], sep);
      if s[0] == sep then [""] + rest else [[s[0]] + rest[0]] + rest[1..]
  }

  function Join(parts: seq<string>, sep: char): string
    requires |parts| > 0
  {
    if |parts| == 1 then parts[0] else parts[0] + ([sep] + Join(parts[1..], sep))
  }

  lemma {:induction false} SplitStep(field: string, rest: string, sep: char)
    requires sep !in field
    ensures Split(field + ([sep] + rest), sep) == [field] + Split(rest, sep)
  {
    var s := field + ([sep] + rest);
    if field == "" {
      assert s[1..] == rest;
    } else {
      SplitStep(field[1..], rest, sep);
      assert s[1..] == field[1..] + ([sep] + rest);
      assert s[0] == field[0] && field[0] in field;
      assert field == [field[0]] + field[1..];
    }
  }

  lemma {:induction false} SplitOne(field: string, sep: char)
    requires sep !in field
    ensures Split(field, sep) == [field]
  {
    if field != "" {
      SplitOne(field[1..], sep);
      assert field[0] in field;
      assert field == [field[0]] + field[1..];
    }
  }

  /** Splitting is the inverse of joining fields without separators. */
  lemma {:induction false} SplitJoin(parts: seq<string>, sep: char)
    requires |parts| > 0 && forall i | 0 <= i < |parts| :: sep !in parts[i]
    ensures Split(Join(parts, sep), sep) == parts
  {
    hide Split;
    if |parts| == 1 {
      SplitOne(parts[0], sep);
    } else {
      SplitJoin(parts[1..], sep);
      SplitStep(parts[0], Join(parts[1..], sep), sep);
    }
  }

  lemma {:induction false} JoinExtend(parts: seq<string>, tail: string, sep: char)
    requires |parts| > 0
    ensures var last := |parts| - 1;
            Join(parts[last := parts[last] + tail], sep) == Join(parts, sep) + tail
  {
    if |parts| > 1 {
      var last := |parts| - 1;
      assert parts[last := parts[last] + tail][1..] == parts[1..][last - 1 := parts[1..][last - 1] + tail];
      JoinExtend(parts[1..], tail, sep);
      Regroup([sep], Join(parts[1..], sep), tail);
      Regroup(parts[0], [sep] + Join(parts[1..], sep), tail);
    }
  }

  datatype Number = Syntax | Range | Number(n: nat)

  predicate IsDigit(c: char) {
    '0' <= c <= '9'
  }

  const INT_LIMIT := 0x8000_0000_0000_0000

  /** Unsigned decimal digits, stopping at the first bad character or at overflow of 64 bits. */
  function Digits(s: string, acc: nat): Number
    decreases |s|
  {
    if s == "" then Number(acc)
    else if !IsDigit(s[0]) then Syntax
    else
      var n := 10 * acc + (s[0] as int - '0' as int);
      if n >= 2 * INT_LIMIT then Range else Digits(s[1..], n)
  }

  function Clamp(v: int): int {
    if v < -INT_LIMIT then -INT_LIMIT else if v >= INT_LIMIT then INT_LIMIT - 1 else v
  }

  /** The integer a string denotes, its error ignored: zero if malformed, clamped to 64 bits if out of
      range. */
  function Atoi(s: string): int {
    var signed := s != "" && (s[0] == '-' || s[0] == '+');
    var negative := signed && s[0] == '-';
    var digits := if signed then s[1..] else s;
    if digits == "" then 0
    else
      match Digits(digits, 0)
      case Syntax => 0
      case Range => if negative then -INT_LIMIT else INT_LIMIT - 1
      case Number(n) => Clamp(if negative then -(n as int) else n)
  }

  function Decimal(n: nat): (s: string)
    ensures s != "" && forall i | 0 <= i < |s| :: IsDigit(s[i])
  {
    var last := ('0' as int + n % 10) as char;
    if n < 10 then [last] else Decimal(n / 10) + [last]
  }

  lemma {:induction false} DigitsOfDecimal(n: nat, rest: string)
    requires n < 2 * INT_LIMIT
    ensures Digits(Decimal(n) + rest, 0) == Digits(rest, n)
  {
    var last := ('0' as int + n % 10) as char;
    assert ([last] + rest)[1..] == rest;
    if n >= 10 {
      DigitsOfDecimal(n / 10, [last] + rest);
      Regroup(Decimal(n / 10), [last], rest);
    }
  }

  predicate AllDigits(s: string) {
    forall i | 0 <= i < |s| :: IsDigit(s[i])
  }

  /** The number that a string of decimal digits denotes. */
  function NumberOf(s: string): nat
    requires AllDigits(s)
  {
    if s == "" then 0
    else
      assert IsDigit(s[|s| - 1]);
      10 * NumberOf(s[..|s| - 1]) + (s[|s| - 1] as int - '0' as int)
  }

  lemma {:induction false} DigitsRun(s: string, rest: string)
    requires AllDigits(s)
    ensures Digits(s + rest, 0) == if NumberOf(s) < 0x1_0000_0000_0000_0000 then Digits(rest, NumberOf(s)) else Range
    decreases |s|
  {
    if s == "" {
      assert s + rest == rest;
    } else {
      var front, c := s[..|s| - 1], s[|s| - 1];
      DigitsRun(front, [c] + rest);
      assert front + ([c] + rest) == s + rest;
      assert ([c] + rest)[1..] == rest && IsDigit(c);
    }
  }

  /** In the range of a 64-bit integer. */
  function Nearest64(v: int): int {
    if v < -0x8000_0000_0000_0000 then -0x8000_0000_0000_0000
    else if v > 0x7FFF_FFFF_FFFF_FFFF then 0x7FFF_FFFF_FFFF_FFFF
    else v
  }

  /** What the decoder makes of a number field: digits, with or without a sign, denote their number, brought into the
      range of 64 bits; anything else is zero, unless its digits alone leave that range first. */
  lemma AtoiIs(sign: string, s: string, rest: string)
    requires sign in ["", "+", "-"] && AllDigits(s)
    requires rest == "" || !IsDigit(rest[0])
    requires sign == "" && s == "" && rest != "" ==> rest[0] != '+' && rest[0] != '-'
    ensures Atoi(sign + s + rest)
         == if NumberOf(s) < 0x1_0000_0000_0000_0000 && (s == "" || rest != "") then 0
            else Nearest64(if sign == "-" then -(NumberOf(s) as int) else NumberOf(s))
  {
    hide NumberOf, AllDigits;
    DigitsRun(s, rest);
    SignOf(sign, s, rest);
    AfterSign(sign, s + rest);
    assert sign + s + rest == sign + (s + rest);
    DigitsEnd(rest, NumberOf(s));
    hide Digits, Atoi;
  }

  lemma SignOf(sign: string, s: string, rest: string)
    requires AllDigits(s) && (sign == "" && s == "" && rest != "" ==> rest[0] != '+' && rest[0] != '-')
    ensures sign == "" && s + rest != "" ==> (s + rest)[0] != '+' && (s + rest)[0] != '-'
  {
    assert s != "" ==> IsDigit(s[0]);
  }

  lemma AfterSign(sign: string, digits: string)
    requires sign in ["", "+", "-"]
    requires sign == "" && digits != "" ==> digits[0] != '+' && digits[0] != '-'
    ensures Atoi(sign + digits)
         == if digits == "" then 0
            else match Digits(digits, 0)
                 case Syntax => 0
                 case Range => if sign == "-" then -INT_LIMIT else INT_LIMIT - 1
                 case Number(n) => Clamp(if sign == "-" then -(n as int) else n)
  {
    hide Digits, Clamp;
    var t := sign + digits;
    if sign == "" {
      assert t == digits;
    } else {
      assert t[0] == sign[0] && t[1..] == digits;
    }
  }

  lemma DigitsEnd(rest: string, acc: nat)
    requires rest == "" || !IsDigit(rest[0])
    ensures Digits(rest, acc) == if rest == "" then Number(acc) else Syntax
  {
  }

  lemma AtoiDecimal(n: nat)
    requires n < INT_LIMIT
    ensures Atoi(Decimal(n)) == n
  {
    DigitsOfDecimal(n, "");
    assert Decimal(n) + "" == Decimal(n);
    assert IsDigit(Decimal(n)[0]);
    hide Decimal, Digits;
  }

  // ---------- the checksum ----------

  /** All characters combined by exclusive or. */
  function Checksum(s: string): (sum: seq<bool>)
    ensures |sum| == 8
  {
    if s == "" then Zeros(8) else Xor(Checksum(s[..|s| - 1]), Bits(s[|s| - 1] as int, 8))
  }

  function HexDigit(c: char): (d: Option<nat>)
    ensures d.Some? ==> d.value < 16
  {
    if '0' <= c <= '9' then Some(c as int - '0' as int)
    else if 'a' <= c <= 'f' then Some(c as int - 'a' as int + 10)
    else if 'A' <= c <= 'F' then Some(c as int - 'A' as int + 10)
    else None
  }

  function HexByte(s: string): Option<nat>
    requires |s| == 2
  {
    var hi, lo := HexDigit(s[0]), HexDigit(s[1]);
    if hi.Some? && lo.Some? then Some(16 * hi.value + lo.value) else None
  }

  predicate ChecksumOk(sentence: string) {
    var star := LastIndex(sentence, '*');
    && star >= 0 && star + 3 <= |sentence|
    && HexByte(sentence[star + 1..star + 3]).Some?
    && Checksum(if star < 1 then "" else sentence[1..star]) == Bits(HexByte(sentence[star + 1..star + 3]).value, 8)
  }

  method VerifyChecksum(sentence: string) returns (ok: bool)
    ensures ok == ChecksumOk(sentence)
  {
    hide Xor, Bits, LastIndex, HexByte;
    var starIdx := LastIndex(sentence, '*');
    if starIdx < 0 || starIdx + 3 > |sentence| {
      return false;
    }
    var checksum := Zeros(8);
    var i := 1;
    while i < starIdx
      invariant 1 <= i && (starIdx >= 1 ==> i <= starIdx)
      invariant checksum == if starIdx < 1 then Zeros(8) else Checksum(sentence[1..i])
    {
      assert sentence[1..i + 1][..i - 1] == sentence[1..i];
      checksum := Xor(checksum, Bits(sentence[i] as int, 8));
      i := i + 1;
    }
    var expected := HexByte(sentence[starIdx + 1..starIdx + 3]);
    if expected.None? {
      return false;
    }
    return checksum == Bits(expected.value, 8);
  }

  lemma BitsDistinct(a: nat, b: nat)
    requires a < 256 && b < 256 && a != b
    ensures Bits(a, 8) != Bits(b, 8)
  {
    hide Bits, Value;
    assert Pow2(8) == 256;
    ValueOfBits(a, 8);
    ValueOfBits(b, 8);
  }

  lemma XorDistinct(x: seq<bool>, y: seq<bool>, d: seq<bool>)
    requires |x| == |y| == |d| && x != y
    ensures Xor(x, d) != Xor(y, d)
  {
    var i :| 0 <= i < |x| && x[i] != y[i];
    assert Xor(x, d)[i] != Xor(y, d)[i];
  }

  lemma XorDistinctRight(x: seq<bool>, d: seq<bool>, e: seq<bool>)
    requires |x| == |d| == |e| && d != e
    ensures Xor(x, d) != Xor(x, e)
  {
    var i :| 0 <= i < |x| && d[i] != e[i];
    assert Xor(x, d)[i] != Xor(x, e)[i];
  }

  lemma {:induction false} ChecksumDiffers(s: string, i: nat, c: char)
    requires i < |s| && s[i] as int < 256 && c as int < 256 && c != s[i]
    ensures Checksum(s[i := c]) != Checksum(s)
  {
    hide Xor, Bits;
    var front, last := s[..|s| - 1], s[|s| - 1];
    if i < |s| - 1 {
      assert s[i := c][..|s| - 1] == front[i := c];
      ChecksumDiffers(front, i, c);
      XorDistinct(Checksum(front[i := c]), Checksum(front), Bits(last as int, 8));
    } else {
      assert s[i := c][..|s| - 1] == front;
      BitsDistinct(c as int, last as int);
      XorDistinctRight(Checksum(front), Bits(c as int, 8), Bits(last as int, 8));
    }
  }

  /** A sentence with any one character of its body changed is refused. */
  lemma ChecksumDetectsChange(sentence: string, i: nat, c: char)
    requires ChecksumOk(sentence) && 1 <= i < LastIndex(sentence, '*')
    requires sentence[i] as int < 256 && c as int < 256 && c != sentence[i]
    ensures !ChecksumOk(sentence[i := c])
  {
    hide Checksum, HexByte;
    var star := LastIndex(sentence, '*');
    var changed := sentence[i := c];
    assert LastIndex(changed, '*') == star by {
      hide LastIndex;
      var star' := LastIndex(changed, '*');
      assert changed[star] == '*';
    }
    assert changed[star + 1..star + 3] == sentence[star + 1..star + 3];
    assert changed[1..star] == sentence[1..star][i - 1 := c];
    ChecksumDiffers(sentence[1..star], i - 1, c);
  }

  // ---------- sentences ----------

  datatype Sentence = Sentence(total: int, num: int, seqId: string, payload: string, fill: int)

  datatype Line = Ignored | Damaged | Parsed(sentence: Sentence)

  function Fields(parts: seq<string>): Sentence
    requires |parts| >= 7
  {
    Sentence(Atoi(parts[1]), Atoi(parts[2]), parts[3], parts[5], Atoi(Split(parts[6], '*')[0]))
  }

  predicate IsAis(line: string) {
    "!AIVDM" <= line || "!AIVDO" <= line
  }

  function ParseTrimmed(line: string): Line {
    if line == "" || !IsAis(line) then Ignored
    else if !ChecksumOk(line) then Damaged
    else
      var parts := Split(line, ',');
      if |parts| < 7 then Damaged else Parsed(Fields(parts))
  }

  /** What a line carries: not AIS, damaged, or the fields of a sentence. */
  function ParseLine(raw: string): Line {
    ParseTrimmed(TrimSpace(raw))
  }

  /** Lines of other ships (AIVDM) and of the own one (AIVDO) are read, and all others ignored. */
  lemma IgnoredIff(raw: string)
    ensures var line := TrimSpace(raw);
            ParseLine(raw).Ignored? <==> !(|line| >= 6 && line[..5] == "!AIVD" && (line[5] == 'M' || line[5] == 'O'))
  {
    hide TrimSpace, ChecksumOk, Split, Fields;
    StartsWith(TrimSpace(raw), "!AIVD", 'M');
    StartsWith(TrimSpace(raw), "!AIVD", 'O');
    assert "!AIVD" + ['M'] == "!AIVDM" && "!AIVD" + ['O'] == "!AIVDO";
  }

  lemma StartsWith(line: string, front: string, c: char)
    ensures front + [c] <= line <==> |line| > |front| && line[..|front|] == front && line[|front|] == c
  {
    if |line| > |front| {
      assert line[..|front| + 1] == line[..|front|] + [line[|front|]];
    }
  }

  predicate Plain(s: string) {
    ',' !in s
  }

  /** Sentences that can be written: no field holds a comma, no number exceeds 64 bits. */
  predicate Sendable(s: Sentence) {
    0 <= s.total < INT_LIMIT && 0 <= s.num < INT_LIMIT && 0 <= s.fill < INT_LIMIT && Plain(s.seqId) && Plain(s.payload)
  }

  function FieldsOf(s: Sentence, channel: string): (parts: seq<string>)
    requires 0 <= s.total && 0 <= s.num && 0 <= s.fill
    ensures |parts| == 7
  {
    ["!AIVDM", Decimal(s.total), Decimal(s.num), s.seqId, channel, s.payload, Decimal(s.fill)]
  }

  // ---------- the checksum of the standard (IEC 61162-1) ----------

  /** The number of characters that have this bit set, the bit given by its weight. */
  function Count(s: string, weight: nat): nat
    requires weight > 0
  {
    if s == "" then 0 else Count(s[..|s| - 1], weight) + if HasBit(s[|s| - 1] as nat, weight) then 1 else 0
  }

  predicate OddCount(s: string, weight: nat)
    requires weight > 0
  {
    Count(s, weight) % 2 == 1
  }

  /** For each bit, the highest first, whether an odd number of the characters have it. */
  function OddBits(s: string): (bits: seq<bool>)
    ensures |bits| == 8
  {
    seq(8, i requires 0 <= i < 8 => OddCount(s, Pow2(7 - i)))
  }

  /** The byte with these bits. */
  function Parity(s: string): (n: nat)
    ensures n < 256
  {
    ValueBound(OddBits(s));
    assert Pow2(8) == 256;
    Value(OddBits(s))
  }

  predicate DigitIs(c: char, d: nat)
    requires d < 16
  {
    c == "0123456789ABCDEF"[d] || c == "0123456789abcdef"[d]
  }

  /** Two hexadecimal digits. */
  function Hex(n: nat): (s: string)
    requires n < 256
    ensures |s| == 2
  {
    ["0123456789ABCDEF"[n / 16], "0123456789ABCDEF"[n % 16]]
  }

  lemma DigitIff(c: char, d: nat)
    requires d < 16
    ensures HexDigit(c) == Some(d) <==> DigitIs(c, d)
  {
  }

  lemma CountNext(s: string, c: char, weight: nat)
    requires weight > 0
    ensures OddCount(s + [c], weight) <==> (OddCount(s, weight) != HasBit(c as nat, weight))
  {
    assert (s + [c])[..|s|] == s;
  }

  lemma {:induction false} ChecksumBit(s: string, i: nat)
    requires i < 8
    ensures Checksum(s)[i] == OddCount(s, Pow2(7 - i))
  {
    if s != "" {
      var front, c := s[..|s| - 1], s[|s| - 1];
      ChecksumBit(front, i);
      BitAt(c as int, 8, i);
      hide Bits, OddCount, HasBit, Pow2;
      assert s == front + [c];
      CountNext(front, c, Pow2(7 - i));
    }
  }

  /** The exclusive or of the characters is that byte. */
  lemma ChecksumCounts(s: string)
    ensures Checksum(s) == OddBits(s)
  {
    hide Checksum, OddCount, Pow2;
    forall i | 0 <= i < 8
      ensures Checksum(s)[i] == OddBits(s)[i]
    {
      ChecksumBit(s, i);
    }
  }

  lemma ChecksumIsParity(s: string)
    ensures Checksum(s) == Bits(Parity(s), 8)
  {
    ChecksumCounts(s);
    BitsOfValue(OddBits(s));
  }

  /** A sentence is accepted if and only if the two characters behind its last star are the hexadecimal digits,
      in either case, of that byte over the characters between the first one and the star. */
  lemma AcceptedIff(sentence: string)
    ensures var star := LastIndex(sentence, '*');
            ChecksumOk(sentence) <==>
              && star >= 0 && star + 3 <= |sentence|
              && var sum := Parity(if star < 1 then "" else sentence[1..star]);
                 DigitIs(sentence[star + 1], sum / 16) && DigitIs(sentence[star + 2], sum % 16)
  {
    var star := LastIndex(sentence, '*');
    hide LastIndex, Parity, HexDigit, DigitIs, Bits, Checksum;
    if star >= 0 && star + 3 <= |sentence| {
      var body := if star < 1 then "" else sentence[1..star];
      var sum := Parity(body);
      ChecksumIsParity(body);
      DigitIff(sentence[star + 1], sum / 16);
      DigitIff(sentence[star + 2], sum % 16);
      var said := HexByte(sentence[star + 1..star + 3]);
      if said.Some? && said.value != sum {
        BitsDistinct(said.value, sum);
      }
    }
  }

  /** The line for a sentence: its fields, a star and the checksum in hexadecimal. */
  function Format(s: Sentence, channel: string): string
    requires 0 <= s.total && 0 <= s.num && 0 <= s.fill
  {
    var body := Join(FieldsOf(s, channel), ',');
    body + ("*" + Hex(Parity(body[1..])))
  }

  lemma HexIsPlain(n: nat)
    requires n < 256
    ensures '*' !in Hex(n) && ',' !in Hex(n) && !IsSpace(Hex(n)[1])
    ensures DigitIs(Hex(n)[0], n / 16) && DigitIs(Hex(n)[1], n % 16)
  {
  }

  /** A sentence with that byte appended is accepted. */
  lemma ChecksumAccepts(body: string)
    requires body != ""
    ensures ChecksumOk(body + ("*" + Hex(Parity(body[1..]))))
  {
    var hex := Hex(Parity(body[1..]));
    var s := body + ("*" + hex);
    HexIsPlain(Parity(body[1..]));
    hide Hex, Parity, ChecksumOk, DigitIs;
    assert LastIndex(s, '*') == |body| by {
      hide LastIndex;
      assert s[|body|] == '*';
      assert s[|body| + 1] == hex[0] && s[|body| + 2] == hex[1];
    }
    assert s[1..|body|] == body[1..];
    AcceptedIff(s);
  }

  lemma {:induction false} TrimLeftSpaces(spaces: string, s: string)
    requires (forall i | 0 <= i < |spaces| :: IsSpace(spaces[i])) && s != "" && !IsSpace(s[0])
    ensures TrimLeft(spaces + s) == s
  {
    if spaces == "" {
      assert spaces + s == s;
    } else {
      assert (spaces + s)[1..] == spaces[1..] + s;
      TrimLeftSpaces(spaces[1..], s);
    }
  }

  lemma {:induction false} TrimRightSpaces(s: string, spaces: string)
    requires (forall i | 0 <= i < |spaces| :: IsSpace(spaces[i])) && s != "" && !IsSpace(s[|s| - 1])
    ensures TrimRight(s + spaces) == s
  {
    if spaces == "" {
      assert s + spaces == s;
    } else {
      var n := |spaces| - 1;
      assert (s + spaces)[..|s| + n] == s + spaces[..n];
      TrimRightSpaces(s, spaces[..n]);
    }
  }

  predicate Blank(s: string) {
    forall i | 0 <= i < |s| :: IsSpace(s[i])
  }

  lemma TrimBlanks(before: string, s: string, after: string)
    requires Blank(before) && Blank(after) && s != "" && !IsSpace(s[0]) && !IsSpace(s[|s| - 1])
    ensures TrimSpace(before + s + after) == s
  {
    hide TrimLeft, TrimRight;
    Regroup(before, s, after);
    TrimLeftSpaces(before, s + after);
    TrimRightSpaces(s, after);
  }

  lemma FormatFields(s: Sentence, channel: string)
    requires Sendable(s) && Plain(channel)
    ensures forall i | 0 <= i < 7 :: ',' !in FieldsOf(s, channel)[i]
  {
    hide Decimal;
  }

  lemma JoinStarts(s: Sentence, channel: string)
    requires Sendable(s)
    ensures "!AIVDM" <= Join(FieldsOf(s, channel), ',')
  {
  }

  /** The fields of a written line. */
  lemma SplitFormat(s: Sentence, channel: string)
    requires Sendable(s) && Plain(channel)
    ensures var parts := Split(Format(s, channel), ',');
            && |parts| == 7 && parts[1] == Decimal(s.total) && parts[2] == Decimal(s.num)
            && parts[3] == s.seqId && parts[5] == s.payload && Split(parts[6], '*')[0] == Decimal(s.fill)
  {
    hide Split, Decimal, Hex, Join, Parity;
    var parts := FieldsOf(s, channel);
    JoinStarts(s, channel);
    var sum := Parity(Join(parts, ',')[1..]);
    var hex := Hex(sum);
    var tail := "*" + hex;
    HexIsPlain(sum);
    FormatFields(s, channel);
    JoinExtend(parts, tail, ',');
    SplitJoin(parts[6 := parts[6] + tail], ',');
    SplitStep(parts[6], hex, '*');
  }

  lemma FieldsFormat(s: Sentence, channel: string)
    requires Sendable(s) && Plain(channel)
    ensures var parts := Split(Format(s, channel), ','); |parts| == 7 && Fields(parts) == s
  {
    hide Split, Format, Decimal, Atoi;
    SplitFormat(s, channel);
    AtoiDecimal(s.total);
    AtoiDecimal(s.num);
    AtoiDecimal(s.fill);
  }

  lemma FormatAccepted(s: Sentence, channel: string)
    requires Sendable(s)
    ensures var line := Format(s, channel);
            line != "" && IsAis(line) && ChecksumOk(line) && !IsSpace(line[0]) && !IsSpace(line[|line| - 1])
  {
    hide Join, Checksum, Hex, ChecksumOk, FieldsOf;
    var body := Join(FieldsOf(s, channel), ',');
    JoinStarts(s, channel);
    ChecksumAccepts(body);
    HexIsPlain(Parity(body[1..]));
  }

  /** Round trip: a written line, with any blanks around it, parses to the sentence. */
  lemma FormatRoundTrip(s: Sentence, channel: string, before: string, after: string)
    requires Sendable(s) && Plain(channel) && Blank(before) && Blank(after)
    ensures ParseLine(before + Format(s, channel) + after) == Parsed(s)
  {
    hide Split, Format, Fields, TrimSpace, ChecksumOk, Blank, IsSpace, IsAis;
    FieldsFormat(s, channel);
    FormatAccepted(s, channel);
    TrimBlanks(before, Format(s, channel), after);
  }
}
