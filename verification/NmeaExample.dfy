/** A line as a receiver prints it: the decoder accepts it. */
module NmeaExample {
  import opened BitStrings
  import opened Nmea

  /** c has the bits in which a and b differ. */
  predicate IsXor(a: nat, b: nat, c: nat) {
    && HasBit(c, 128) == (HasBit(a, 128) != HasBit(b, 128)) && HasBit(c, 64) == (HasBit(a, 64) != HasBit(b, 64))
    && HasBit(c, 32) == (HasBit(a, 32) != HasBit(b, 32)) && HasBit(c, 16) == (HasBit(a, 16) != HasBit(b, 16))
    && HasBit(c, 8) == (HasBit(a, 8) != HasBit(b, 8)) && HasBit(c, 4) == (HasBit(a, 4) != HasBit(b, 4))
    && HasBit(c, 2) == (HasBit(a, 2) != HasBit(b, 2)) && HasBit(c, 1) == (HasBit(a, 1) != HasBit(b, 1))
  }

  lemma Weights()
    ensures Pow2(0) == 1 && Pow2(1) == 2 && Pow2(2) == 4 && Pow2(3) == 8
    ensures Pow2(4) == 16 && Pow2(5) == 32 && Pow2(6) == 64 && Pow2(7) == 128
  {
  }

  lemma XorBits(a: nat, b: nat, c: nat)
    requires IsXor(a, b, c)
    ensures Xor(Bits(a, 8), Bits(b, 8)) == Bits(c, 8)
  {
    Weights();
    hide Bits, HasBit, Pow2;
    forall i | 0 <= i < 8
      ensures Xor(Bits(a, 8), Bits(b, 8))[i] == Bits(c, 8)[i]
    {
      BitAt(a, 8, i);
      BitAt(b, 8, i);
      BitAt(c, 8, i);
    }
  }

  /** One character more. */
  lemma CharNext(s: string, c: char, sum: nat, code: nat, next: nat)
    requires Checksum(s) == Bits(sum, 8) && c as nat == code && IsXor(sum, code, next)
    ensures Checksum(s + [c]) == Bits(next, 8)
  {
    hide Bits, IsXor;
    assert (s + [c])[..|s|] == s;
    XorBits(sum, code, next);
  }

  lemma Part0(s: string)
    requires Checksum(s) == Bits(0x0, 8)
    ensures Checksum(s + "AIVD") == Bits(0x1a, 8)
  {
    hide Bits, Checksum;
    CharNext(s, 'A', 0x0, 0x41, 0x41);
    CharNext(s + ['A'], 'I', 0x41, 0x49, 0x8);
    CharNext(s + ['A'] + ['I'], 'V', 0x8, 0x56, 0x5e);
    CharNext(s + ['A'] + ['I'] + ['V'], 'D', 0x5e, 0x44, 0x1a);
    assert s + "AIVD" == s + ['A'] + ['I'] + ['V'] + ['D'];
  }

  lemma Part1(s: string)
    requires Checksum(s) == Bits(0x1a, 8)
    ensures Checksum(s + "M,1,") == Bits(0x66, 8)
  {
    hide Bits, Checksum;
    CharNext(s, 'M', 0x1a, 0x4d, 0x57);
    CharNext(s + ['M'], ',', 0x57, 0x2c, 0x7b);
    CharNext(s + ['M'] + [','], '1', 0x7b, 0x31, 0x4a);
    CharNext(s + ['M'] + [','] + ['1'], ',', 0x4a, 0x2c, 0x66);
    assert s + "M,1," == s + ['M'] + [','] + ['1'] + [','];
  }

  lemma Part2(s: string)
    requires Checksum(s) == Bits(0x66, 8)
    ensures Checksum(s + "1,,B") == Bits(0x15, 8)
  {
    hide Bits, Checksum;
    CharNext(s, '1', 0x66, 0x31, 0x57);
    CharNext(s + ['1'], ',', 0x57, 0x2c, 0x7b);
    CharNext(s + ['1'] + [','], ',', 0x7b, 0x2c, 0x57);
    CharNext(s + ['1'] + [','] + [','], 'B', 0x57, 0x42, 0x15);
    assert s + "1,,B" == s + ['1'] + [','] + [','] + ['B'];
  }

  lemma Part3(s: string)
    requires Checksum(s) == Bits(0x15, 8)
    ensures Checksum(s + ",15M") == Bits(0x70, 8)
  {
    hide Bits, Checksum;
    CharNext(s, ',', 0x15, 0x2c, 0x39);
    CharNext(s + [','], '1', 0x39, 0x31, 0x8);
    CharNext(s + [','] + ['1'], '5', 0x8, 0x35, 0x3d);
    CharNext(s + [','] + ['1'] + ['5'], 'M', 0x3d, 0x4d, 0x70);
    assert s + ",15M" == s + [','] + ['1'] + ['5'] + ['M'];
  }

  lemma Part4(s: string)
    requires Checksum(s) == Bits(0x70, 8)
    ensures Checksum(s + "67N0") == Bits(0xf, 8)
  {
    hide Bits, Checksum;
    CharNext(s, '6', 0x70, 0x36, 0x46);
    CharNext(s + ['6'], '7', 0x46, 0x37, 0x71);
    CharNext(s + ['6'] + ['7'], 'N', 0x71, 0x4e, 0x3f);
    CharNext(s + ['6'] + ['7'] + ['N'], '0', 0x3f, 0x30, 0xf);
    assert s + "67N0" == s + ['6'] + ['7'] + ['N'] + ['0'];
  }

  lemma Part5(s: string)
    requires Checksum(s) == Bits(0xf, 8)
    ensures Checksum(s + "000G") == Bits(0x78, 8)
  {
    hide Bits, Checksum;
    CharNext(s, '0', 0xf, 0x30, 0x3f);
    CharNext(s + ['0'], '0', 0x3f, 0x30, 0xf);
    CharNext(s + ['0'] + ['0'], '0', 0xf, 0x30, 0x3f);
    CharNext(s + ['0'] + ['0'] + ['0'], 'G', 0x3f, 0x47, 0x78);
    assert s + "000G" == s + ['0'] + ['0'] + ['0'] + ['G'];
  }

  lemma Part6(s: string)
    requires Checksum(s) == Bits(0x78, 8)
    ensures Checksum(s + "?Uf6") == Bits(0x42, 8)
  {
    hide Bits, Checksum;
    CharNext(s, '?', 0x78, 0x3f, 0x47);
    CharNext(s + ['?'], 'U', 0x47, 0x55, 0x12);
    CharNext(s + ['?'] + ['U'], 'f', 0x12, 0x66, 0x74);
    CharNext(s + ['?'] + ['U'] + ['f'], '6', 0x74, 0x36, 0x42);
    assert s + "?Uf6" == s + ['?'] + ['U'] + ['f'] + ['6'];
  }

  lemma Part7(s: string)
    requires Checksum(s) == Bits(0x42, 8)
    ensures Checksum(s + "E`Fe") == Bits(0x44, 8)
  {
    hide Bits, Checksum;
    CharNext(s, 'E', 0x42, 0x45, 0x7);
    CharNext(s + ['E'], '`', 0x7, 0x60, 0x67);
    CharNext(s + ['E'] + ['`'], 'F', 0x67, 0x46, 0x21);
    CharNext(s + ['E'] + ['`'] + ['F'], 'e', 0x21, 0x65, 0x44);
    assert s + "E`Fe" == s + ['E'] + ['`'] + ['F'] + ['e'];
  }

  lemma Part8(s: string)
    requires Checksum(s) == Bits(0x44, 8)
    ensures Checksum(s + "pT@0") == Bits(0x10, 8)
  {
    hide Bits, Checksum;
    CharNext(s, 'p', 0x44, 0x70, 0x34);
    CharNext(s + ['p'], 'T', 0x34, 0x54, 0x60);
    CharNext(s + ['p'] + ['T'], '@', 0x60, 0x40, 0x20);
    CharNext(s + ['p'] + ['T'] + ['@'], '0', 0x20, 0x30, 0x10);
    assert s + "pT@0" == s + ['p'] + ['T'] + ['@'] + ['0'];
  }

  lemma Part9(s: string)
    requires Checksum(s) == Bits(0x10, 8)
    ensures Checksum(s + "n00S") == Bits(0x2d, 8)
  {
    hide Bits, Checksum;
    CharNext(s, 'n', 0x10, 0x6e, 0x7e);
    CharNext(s + ['n'], '0', 0x7e, 0x30, 0x4e);
    CharNext(s + ['n'] + ['0'], '0', 0x4e, 0x30, 0x7e);
    CharNext(s + ['n'] + ['0'] + ['0'], 'S', 0x7e, 0x53, 0x2d);
    assert s + "n00S" == s + ['n'] + ['0'] + ['0'] + ['S'];
  }

  lemma Part10(s: string)
    requires Checksum(s) == Bits(0x2d, 8)
    ensures Checksum(s + "8,0") == Bits(0x9, 8)
  {
    hide Bits, Checksum;
    CharNext(s, '8', 0x2d, 0x38, 0x15);
    CharNext(s + ['8'], ',', 0x15, 0x2c, 0x39);
    CharNext(s + ['8'] + [','], '0', 0x39, 0x30, 0x9);
    assert s + "8,0" == s + ['8'] + [','] + ['0'];
  }

  // the characters between '!' and '*', in fours
  const BODY := "AIVD" + "M,1," + "1,,B" + ",15M" + "67N0" + "000G" + "?Uf6" + "E`Fe" + "pT@0" + "n00S" + "8,0"

  lemma NoChars()
    ensures Checksum("") == Bits(0, 8)
  {
    hide Bits;
    ByteBits(0);
  }

  lemma BodySum()
    ensures Checksum(BODY) == Bits(0x9, 8)
  {
    NoChars();
    hide Checksum, Bits;
    assert "" + "AIVD" == "AIVD";
    Part0("");
    var s1 := "AIVD" + "M,1,";
    Part1("AIVD");
    var s2 := s1 + "1,,B";
    Part2(s1);
    var s3 := s2 + ",15M";
    Part3(s2);
    var s4 := s3 + "67N0";
    Part4(s3);
    var s5 := s4 + "000G";
    Part5(s4);
    var s6 := s5 + "?Uf6";
    Part6(s5);
    var s7 := s6 + "E`Fe";
    Part7(s6);
    var s8 := s7 + "pT@0";
    Part8(s7);
    var s9 := s8 + "n00S";
    Part9(s8);
    var s10 := s9 + "8,0";
    Part10(s9);
    assert BODY == s10;
  }

  /** !AIVDM,1,1,,B,15M67N0000G?Uf6E`FepT@0n00S8,0*09 is accepted. */
  lemma LineAccepted()
    ensures ChecksumOk("!" + BODY + "*09")
  {
    BodySum();
    hide Checksum, Bits, BODY;
    var line := "!" + BODY + "*09";
    var n := |BODY| + 1;
    assert line[n] == '*' && line[n + 1] == '0' && line[n + 2] == '9' && |line| == n + 3;
    assert line[n + 1..n + 3] == "09" && line[1..n] == BODY;
    assert LastIndex(line, '*') == n by { hide LastIndex; }
  }
}
