/** Messages as the sender packs them: fields one after another, each read back from its place. */
module AisPacking {
  import opened BitStrings
  import opened AisBits
  import opened Sequences

  function Offset(parts: seq<seq<bool>>, i: nat): nat
    requires i <= |parts|
  {
    if i == 0 then 0 else Offset(parts, i - 1) + |parts[i - 1]|
  }

  lemma {:induction false} OffsetShift(parts: seq<seq<bool>>, i: nat)
    requires 0 < i <= |parts|
    ensures Offset(parts, i) == |parts[0]| + Offset(parts[1..], i - 1)
  {
    if i > 1 {
      OffsetShift(parts, i - 1);
    }
  }

  lemma {:induction false} ConcatLength(parts: seq<seq<bool>>)
    ensures |Concat(parts)| == Offset(parts, |parts|)
  {
    if parts != [] {
      ConcatLength(parts[1..]);
      OffsetShift(parts, |parts|);
    }
  }

  lemma {:induction false} PartOfConcat(parts: seq<seq<bool>>, i: nat)
    requires i < |parts|
    ensures var lo, hi := Offset(parts, i), Offset(parts, i + 1);
            lo <= hi <= |Concat(parts)| && Concat(parts)[lo..hi] == parts[i]
  {
    if i == 0 {
      assert Offset(parts, 1) == |parts[0]|;
    } else {
      PartOfConcat(parts[1..], i - 1);
      OffsetShift(parts, i);
      OffsetShift(parts, i + 1);
    }
  }

  /** Fields with the place each starts at. */
  ghost predicate Lies(parts: seq<seq<bool>>, i: nat, start: nat) {
    i < |parts| && Offset(parts, i) == start
  }

  /** An unsigned number is read back. */
  lemma NumberAt(parts: seq<seq<bool>>, i: nat, start: nat, v: nat, n: nat)
    requires Lies(parts, i, start) && parts[i] == Bits(v, n) && v < Pow2(n)
    ensures Field(Concat(parts), start, n) == v
  {
    hide Bits, Value, Concat, Pow2;
    PartOfConcat(parts, i);
    ValueOfBits(v, n);
  }

  lemma SignedFrom(bits: seq<bool>, start: nat, v: int, n: nat)
    requires n > 0 && -(Pow2(n - 1) as int) <= v < Pow2(n - 1)
    requires start + n <= |bits| && bits[start..start + n] == SignedBits(v, n)
    ensures SignedField(bits, start, n) == v
  {
    hide Value, Pow2, SignedBits;
    SignedRoundTrip(v, n);
    var s := SignedBits(v, n);
    assert s[0] == bits[start];
    assert s[0..n] == s;
  }

  /** A two's complement number is read back. */
  lemma SignedAt(parts: seq<seq<bool>>, i: nat, start: nat, v: int, n: nat)
    requires n > 0 && -(Pow2(n - 1) as int) <= v < Pow2(n - 1)
    requires Lies(parts, i, start) && parts[i] == SignedBits(v, n)
    ensures start < |Concat(parts)| && SignedField(Concat(parts), start, n) == v
  {
    hide SignedBits, SignedField, Concat, Pow2;
    PartOfConcat(parts, i);
    SignedFrom(Concat(parts), start, v, n);
  }

  /** Text is read back. */
  lemma TextAt(parts: seq<seq<bool>>, i: nat, start: nat, text: string)
    requires Lies(parts, i, start) && InAlphabet(text) && parts[i] == TextBits(text)
    ensures Letters(Concat(parts), start, |text|) == text
  {
    hide TextBits, Letters, Concat, InAlphabet;
    PartOfConcat(parts, i);
    TextRoundTrip(text, Concat(parts), start);
  }
}
