/** Little-endian words in byte sequences. */
module LittleEndian {
  import opened Arithmetic
  import opened BitStrings

  function Limit(n: nat): (m: nat)
    ensures m > 0
  {
    if n == 0 then 1 else 256 * Limit(n - 1)
  }

  /** The low n bytes of v, lowest first. */
  function Bytes(v: nat, n: nat): (s: seq<byte>)
    ensures |s| == n
  {
    if n == 0 then [] else [v % 256] + Bytes(v / 256, n - 1)
  }

  function Word(s: seq<byte>): nat {
    if s == [] then 0 else s[0] + 256 * Word(s[1..])
  }

  lemma {:induction false} WordBound(s: seq<byte>)
    ensures Word(s) < Limit(|s|)
  {
    if s != [] {
      WordBound(s[1..]);
    }
  }

  lemma {:induction false} BytesOfWord(s: seq<byte>)
    ensures Bytes(Word(s), |s|) == s
  {
    if s != [] {
      BytesOfWord(s[1..]);
    }
  }

  lemma {:induction false} WordOfBytes(v: nat, n: nat)
    requires v < Limit(n)
    ensures Word(Bytes(v, n)) == v
  {
    if n > 0 {
      WordOfBytes(v / 256, n - 1);
    }
  }

  /** A word of n bytes keeps what fits. */
  lemma {:induction false} WordOfBytesMod(v: nat, n: nat)
    ensures Word(Bytes(v, n)) == v % Limit(n)
  {
    if n > 0 {
      WordOfBytesMod(v / 256, n - 1);
      ModNested(v, Limit(n - 1));
    }
  }

  lemma ModNested(v: nat, m: nat)
    requires m > 0
    ensures v % (256 * m) == v % 256 + 256 * (v / 256 % m)
  {
    var q, r := v / 256 / m, v / 256 % m;
    assert v == 256 * (q * m + r) + v % 256;
    assert v == q * (256 * m) + (256 * r + v % 256);
    DivisionUnique(v, 256 * m, q, 256 * r + v % 256);
  }

  lemma Limits()
    ensures Limit(1) == 0x100 && Limit(2) == 0x1_0000 && Limit(4) == 0x1_0000_0000
         && Limit(8) == 0x1_0000_0000_0000_0000
  {
    assert Limit(3) == 0x100_0000 && Limit(5) == 0x100_0000_0000 && Limit(6) == 0x1_0000_0000_0000;
  }
}
